/**
 * The per-request prompt of `generate_recipes` and the "additional
 * requirements" text that `main` assembles from the sidebar selections.
 */
module Prompt {
  import opened Text

  /** The fixed text of the request prompt, piece by piece. The prompt is
      `lead`, the ingredient text, a blank line, the dietary block,
      `heading`, the additional context and `closing`. The dietary block is
      empty when no restriction is selected; otherwise it is `dietaryLead`,
      the restrictions joined by `separator`, and `dietaryTail`. */
  datatype Template = Template(lead: string, dietaryLead: string, separator: string,
                               dietaryTail: string, heading: string, closing: string)

  /** The text of the two f-strings in `generate_recipes`. */
  const PromptTemplate := Template(
    "Generate 2-3 recipe suggestions using these ingredients: ",
    "\nCRITICAL DIETARY REQUIREMENTS - ALL recipes must comply with:\n",
    ", ",
    "\n\nEnsure every recipe strictly follows these dietary restrictions. Do not suggest any recipes that violate these requirements.",
    "\n\nAdditional requirements:\n",
    "\n\nRemember to respond with valid JSON format only, following the exact structure specified in the system instructions. Include accurate dietary_tags and allergen_warnings for each recipe.")

  /** The value of a preference select box that adds nothing to the context. */
  const AnyChoice := "Any"

  /** The dietary block of template `t`: empty when nothing is selected,
      otherwise the selected restrictions joined by the separator between
      the block's lead and tail. */
  function DietaryBlock(t: Template, restrictions: seq<string>): (block: string)
    ensures restrictions == [] ==> block == ""
    ensures restrictions != [] ==> |t.dietaryLead| <= |block|
    ensures t.dietaryLead != "" ==> (block == "" <==> restrictions == [])
  {
    if restrictions == [] then ""
    else t.dietaryLead + Join(restrictions, t.separator) + t.dietaryTail
  }

  /** The prompt that template `t` gives for the ingredient text, the
      selected restrictions and the additional context. */
  function Render(t: Template, ingredients: string, restrictions: seq<string>, context: string): string
  {
    t.lead + ingredients + ("\n\n" + DietaryBlock(t, restrictions) + t.heading) + (context + t.closing)
  }

  /** A prompt opens with the lead and the ingredient text exactly as
      entered, and ends with the context and the closing instruction. */
  lemma {:induction false} RenderEnds(t: Template, ingredients: string, restrictions: seq<string>, context: string)
    ensures var prompt := Render(t, ingredients, restrictions, context);
            && |t.lead + ingredients| + |context + t.closing| <= |prompt|
            && prompt[..|t.lead + ingredients|] == t.lead + ingredients
            && prompt[|prompt| - |context + t.closing|..] == context + t.closing
  {
    ThreeSlices(t.lead + ingredients, "\n\n" + DietaryBlock(t, restrictions) + t.heading, context + t.closing);
  }

  /** `dietary_prompt` in `generate_recipes`: empty exactly when no
      restriction is selected. */
  function DietaryPrompt(restrictions: seq<string>): (block: string)
    ensures block == "" <==> restrictions == []
  {
    assert PromptTemplate.dietaryLead != "";
    DietaryBlock(PromptTemplate, restrictions)
  }

  /** `formatted_prompt` in `generate_recipes`: it opens with "Generate 2-3
      recipe suggestions using these ingredients: " and the ingredient text
      as entered, and ends with the context and the closing instruction. */
  function FormattedPrompt(ingredients: string, restrictions: seq<string>, context: string): (prompt: string)
    ensures |PromptTemplate.lead + ingredients| + |context + PromptTemplate.closing| <= |prompt|
    ensures prompt[..|PromptTemplate.lead + ingredients|] == PromptTemplate.lead + ingredients
    ensures prompt[|prompt| - |context + PromptTemplate.closing|..] == context + PromptTemplate.closing
  {
    RenderEnds(PromptTemplate, ingredients, restrictions, context);
    Render(PromptTemplate, ingredients, restrictions, context)
  }

  /** How a text made of three consecutive pieces is cut back into them. */
  lemma ThreeSlices(a: string, b: string, c: string)
    ensures |a + b + c| == |a| + |b| + |c|
    ensures (a + b + c)[..|a|] == a
    ensures (a + b + c)[|a|..|a| + |b|] == b
    ensures (a + b + c)[|a| + |b|..] == c
  {
  }

  /** Where the dietary block starts inside a prompt of template `t`. */
  function DietaryStart(t: Template, ingredients: string): nat
  {
    |t.lead| + |ingredients| + 2
  }

  /** How a text whose middle piece is itself made of three pieces is cut
      back into the inner pieces. */
  lemma InnerSlices(a: string, b1: string, b2: string, b3: string, c: string)
    ensures var s := a + (b1 + b2 + b3) + c;
            var i := |a| + |b1|;
            && i + |b2| + |b3| <= |s|
            && s[i..i + |b2|] == b2
            && s[i + |b2|..i + |b2| + |b3|] == b3
  {
    var s := a + (b1 + b2 + b3) + c;
    var i := |a| + |b1|;
    assert s == (a + b1) + b2 + (b3 + c);
    assert s[i..i + |b2|] == b2;
    assert s[i + |b2|..] == b3 + c;
  }

  /** A prompt carries the dietary block right after the ingredient line,
      followed by the requirements heading. */
  lemma {:induction false} DietarySlot(t: Template, ingredients: string, restrictions: seq<string>, context: string)
    ensures var prompt := Render(t, ingredients, restrictions, context);
            var k := DietaryStart(t, ingredients);
            var block := DietaryBlock(t, restrictions);
            && k + |block| + |t.heading| <= |prompt|
            && prompt[k..k + |block|] == block
            && prompt[k + |block|..k + |block| + |t.heading|] == t.heading
  {
    InnerSlices(t.lead + ingredients, "\n\n", DietaryBlock(t, restrictions), t.heading, context + t.closing);
  }

  /** The app's prompt carries the dietary block right after the ingredient
      line, followed by "Additional requirements"; the block is empty
      exactly when no restriction is selected. */
  lemma {:induction false} PromptDietarySlot(ingredients: string, restrictions: seq<string>, context: string)
    ensures var prompt := FormattedPrompt(ingredients, restrictions, context);
            var k := DietaryStart(PromptTemplate, ingredients);
            var block := DietaryPrompt(restrictions);
            && k + |block| + |PromptTemplate.heading| <= |prompt|
            && prompt[k..k + |block|] == block
            && prompt[k + |block|..k + |block| + |PromptTemplate.heading|] == PromptTemplate.heading
            && (block == "" <==> restrictions == [])
  {
    DietarySlot(PromptTemplate, ingredients, restrictions, context);
  }

  /** `text` holds `piece` at offset `k`. */
  predicate HoldsAt(text: string, k: nat, piece: string)
  {
    k + |piece| <= |text| && text[k..k + |piece|] == piece
  }

  /** A slice of a piece found inside a text is the matching slice of the text. */
  lemma SubSlice(s: string, k: nat, t: string, i: nat, j: nat)
    requires k + |t| <= |s| && s[k..k + |t|] == t && i <= j <= |t|
    ensures s[k + i..k + j] == t[i..j]
  {
    forall n | 0 <= n < j - i
      ensures s[k + i..k + j][n] == t[i..j][n]
    {
      assert s[k + i + n] == s[k..k + |t|][i + n];
    }
  }

  /** With restrictions selected, their joined list sits right after the
      dietary lead. */
  lemma {:induction false} JoinedRestrictions(t: Template, ingredients: string, restrictions: seq<string>, context: string)
    requires restrictions != []
    ensures HoldsAt(Render(t, ingredients, restrictions, context),
                    DietaryStart(t, ingredients) + |t.dietaryLead|, Join(restrictions, t.separator))
  {
    var prompt := Render(t, ingredients, restrictions, context);
    var joined := Join(restrictions, t.separator);
    DietarySlot(t, ingredients, restrictions, context);
    assert DietaryBlock(t, restrictions) == t.dietaryLead + joined + t.dietaryTail;
    MiddleOfPiece(prompt, DietaryStart(t, ingredients), t.dietaryLead, joined, t.dietaryTail);
  }

  /** Where a text holds `x + y + z` at offset `k`, it holds `y` right
      after `x`. */
  lemma {:induction false} MiddleOfPiece(text: string, k: nat, x: string, y: string, z: string)
    requires k + |x + y + z| <= |text| && text[k..k + |x + y + z|] == x + y + z
    ensures k + |x| + |y| <= |text| && text[k + |x|..k + |x| + |y|] == y
  {
    ThreeSlices(x, y, z);
    SubSlice(text, k, x + y + z, |x|, |x| + |y|);
  }

  /** Part `i` of `Join(parts, sep)` is found in `text` where it belongs
      when the joined list starts at `s`: at its offset, and, unless it is
      the last, followed by the separator and then by the next part. */
  ghost predicate PartInText(text: string, s: nat, parts: seq<string>, sep: string, i: nat)
    requires i < |parts|
  {
    var at := s + JoinOffset(parts, sep, i);
    var end := at + |parts[i]|;
    && end <= |text|
    && text[at..end] == parts[i]
    && (i + 1 < |parts| ==>
          && end + |sep| <= |text|
          && text[end..end + |sep|] == sep
          && s + JoinOffset(parts, sep, i + 1) == end + |sep|)
  }

  /** Every selected restriction appears verbatim in a prompt, in the order
      given, each followed by the separator except the last. */
  lemma {:induction false} ListsRestrictions(t: Template, ingredients: string, restrictions: seq<string>, context: string, i: nat)
    requires i < |restrictions|
    ensures PartInText(Render(t, ingredients, restrictions, context),
                       DietaryStart(t, ingredients) + |t.dietaryLead|, restrictions, t.separator, i)
  {
    JoinedRestrictions(t, ingredients, restrictions, context);
    JoinedPartsInText(Render(t, ingredients, restrictions, context),
                      DietaryStart(t, ingredients) + |t.dietaryLead|, restrictions, t.separator, i);
  }

  /** Every selected restriction appears verbatim in the app's prompt after
      the "CRITICAL DIETARY REQUIREMENTS" lead, in the order given, each
      followed by ", " except the last. */
  lemma {:induction false} PromptListsRestrictions(ingredients: string, restrictions: seq<string>, context: string, i: nat)
    requires i < |restrictions|
    ensures PartInText(FormattedPrompt(ingredients, restrictions, context),
                       DietaryStart(PromptTemplate, ingredients) + |PromptTemplate.dietaryLead|,
                       restrictions, PromptTemplate.separator, i)
  {
    ListsRestrictions(PromptTemplate, ingredients, restrictions, context, i);
  }

  /** Where a joined list sits inside a larger text, each part sits at its
      offset, followed by the separator unless it is the last. */
  lemma {:induction false} JoinedPartsInText(text: string, s: nat, parts: seq<string>, sep: string, i: nat)
    requires i < |parts|
    requires HoldsAt(text, s, Join(parts, sep))
    ensures PartInText(text, s, parts, sep, i)
  {
    var joined := Join(parts, sep);
    JoinAt(parts, sep, i);
    var at := JoinOffset(parts, sep, i);
    var len := |parts[i]|;
    SubSlice(text, s, joined, at, at + len);
    if i + 1 < |parts| {
      SubSlice(text, s, joined, at + len, at + len + |sep|);
    }
  }

  /** A line that is present only when its condition holds. */
  function LineIf(present: bool, line: string): seq<string>
  {
    if present then [line] else []
  }

  /** `context_parts` and `additional_context` in `main`: one line per
      preference that is not "Any", in a fixed order, then the notes when
      they are not blank; the lines are joined by newlines. The context is
      empty exactly when nothing was chosen and the notes are blank. */
  method AdditionalContext(cuisine: string, difficulty: string, cookingTime: string, notes: string)
    returns (parts: seq<string>, context: string)
    ensures parts == LineIf(cuisine != AnyChoice, "Cuisine type: " + cuisine)
                     + LineIf(difficulty != AnyChoice, "Difficulty level: " + difficulty)
                     + LineIf(cookingTime != AnyChoice, "Cooking time: " + cookingTime)
                     + LineIf(!Blank(notes), "Additional notes: " + notes)
    ensures context == Join(parts, "\n")
    ensures context == "" <==> cuisine == AnyChoice && difficulty == AnyChoice && cookingTime == AnyChoice && Blank(notes)
  {
    parts := [];
    if cuisine != AnyChoice {
      parts := parts + ["Cuisine type: " + cuisine];
    }
    ghost var upToCuisine := parts;
    if difficulty != AnyChoice {
      parts := parts + ["Difficulty level: " + difficulty];
    }
    ghost var upToDifficulty := parts;
    if cookingTime != AnyChoice {
      parts := parts + ["Cooking time: " + cookingTime];
    }
    ghost var upToTime := parts;
    if !Blank(notes) {
      parts := parts + ["Additional notes: " + notes];
    }
    context := Join(parts, "\n");
    assert parts == [] <==> upToTime == [] && Blank(notes);
    assert upToTime == [] <==> upToDifficulty == [] && cookingTime == AnyChoice;
    assert upToDifficulty == [] <==> upToCuisine == [] && difficulty == AnyChoice;
    if parts != [] {
      JoinOffsetBelowEnd(parts, "\n", 0);
      assert parts[0] != [];
    }
  }
}
