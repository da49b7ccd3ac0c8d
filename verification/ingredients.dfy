/**
 * `validate_ingredients`: the check run on the comma-separated ingredient
 * text before any request is built.
 */
module Ingredients {
  import opened Text

  const EmptyMessage := "Please enter some ingredients"
  const TooFewMessage := "Please enter at least 2 ingredients separated by commas"

  /** `[p.strip() for p in pieces if p.strip()]`: the non-blank pieces,
      trimmed, in their original order. */
  function StrippedItems(pieces: seq<string>): (items: seq<string>)
    ensures |items| <= |pieces|
    ensures forall i :: 0 <= i < |items| ==>
              items[i] != [] && !IsSpace(items[i][0]) && !IsSpace(items[i][|items[i]| - 1])
  {
    if pieces == [] then []
    else (if Blank(pieces[0]) then [] else [Strip(pieces[0])]) + StrippedItems(pieces[1..])
  }

  /** The ingredient list the validator counts. */
  function IngredientList(text: string): (items: seq<string>)
    ensures forall i :: 0 <= i < |items| ==> items[i] != [] && ',' !in items[i]
  {
    var pieces := Split(text, ',');
    NoSeparatorInItems(pieces);
    StrippedItems(pieces)
  }

  lemma {:induction false} NoSeparatorInItems(pieces: seq<string>)
    requires forall i :: 0 <= i < |pieces| ==> ',' !in pieces[i]
    ensures forall i :: 0 <= i < |StrippedItems(pieces)| ==> ',' !in StrippedItems(pieces)[i]
  {
    if pieces != [] {
      NoSeparatorInItems(pieces[1..]);
    }
  }

  /** `items` are the stripped pieces at the positions `idx`, which are
      increasing and are exactly the positions of the non-blank pieces. */
  ghost predicate Selects(pieces: seq<string>, items: seq<string>, idx: seq<nat>)
  {
    && |idx| == |items|
    && (forall i :: 0 <= i < |idx| ==>
          idx[i] < |pieces| && !Blank(pieces[idx[i]]) && items[i] == Strip(pieces[idx[i]]))
    && (forall i, j :: 0 <= i < j < |idx| ==> idx[i] < idx[j])
    && (forall j :: 0 <= j < |pieces| && !Blank(pieces[j]) ==> j in idx)
  }

  /** Which items the comprehension keeps: the stripped non-blank pieces,
      each once, in their original order. */
  lemma {:induction false} KeptPieces(pieces: seq<string>) returns (idx: seq<nat>)
    ensures Selects(pieces, StrippedItems(pieces), idx)
  {
    if pieces == [] {
      return [];
    }
    var rest := KeptPieces(pieces[1..]);
    var items := StrippedItems(pieces[1..]);
    SelectsShifted(pieces, items, rest);
    ShiftedCovers(pieces, items, rest);
    if Blank(pieces[0]) {
      assert StrippedItems(pieces) == items;
      SelectsSkip(pieces, items, Shift(rest));
      idx := Shift(rest);
    } else {
      assert StrippedItems(pieces) == [Strip(pieces[0])] + items;
      idx := SelectsFirst(pieces, items, Shift(rest));
    }
  }

  /** Positions in the pieces after the first, renumbered to count from
      the first piece. */
  function Shift(rest: seq<nat>): (shifted: seq<nat>)
    ensures |shifted| == |rest| && forall i :: 0 <= i < |rest| ==> shifted[i] == rest[i] + 1
  {
    seq(|rest|, i requires 0 <= i < |rest| => rest[i] + 1)
  }

  /** A selection from the pieces after the first, renumbered, selects the
      same items from all the pieces. */
  lemma SelectsShifted(pieces: seq<string>, items: seq<string>, rest: seq<nat>)
    requires pieces != [] && Selects(pieces[1..], items, rest)
    ensures forall i :: 0 <= i < |rest| ==>
              0 < Shift(rest)[i] < |pieces| && !Blank(pieces[Shift(rest)[i]]) && items[i] == Strip(pieces[Shift(rest)[i]])
  {
    var tail := pieces[1..];
    forall i | 0 <= i < |rest|
      ensures Shift(rest)[i] < |pieces| && pieces[Shift(rest)[i]] == tail[rest[i]]
    {
    }
  }

  /** The renumbered selection still covers every non-blank piece after
      the first. */
  lemma ShiftedCovers(pieces: seq<string>, items: seq<string>, rest: seq<nat>)
    requires pieces != [] && Selects(pieces[1..], items, rest)
    ensures forall j :: 1 <= j < |pieces| && !Blank(pieces[j]) ==> j in Shift(rest)
  {
    var tail := pieces[1..];
    forall j | 1 <= j < |pieces| && !Blank(pieces[j])
      ensures j in Shift(rest)
    {
      assert tail[j - 1] == pieces[j];
      var i :| 0 <= i < |rest| && rest[i] == j - 1;
      assert Shift(rest)[i] == j;
    }
  }

  /** Dropping a blank first piece keeps the selection. */
  lemma SelectsSkip(pieces: seq<string>, items: seq<string>, shifted: seq<nat>)
    requires pieces != [] && Blank(pieces[0])
    requires |shifted| == |items|
    requires forall i :: 0 <= i < |shifted| ==>
               0 < shifted[i] < |pieces| && !Blank(pieces[shifted[i]]) && items[i] == Strip(pieces[shifted[i]])
    requires forall i, j :: 0 <= i < j < |shifted| ==> shifted[i] < shifted[j]
    requires forall j :: 1 <= j < |pieces| && !Blank(pieces[j]) ==> j in shifted
    ensures Selects(pieces, items, shifted)
  {
  }

  /** Keeping a non-blank first piece in front of a selection from the
      others gives a selection from all of them. */
  lemma SelectsFirst(pieces: seq<string>, items: seq<string>, shifted: seq<nat>) returns (idx: seq<nat>)
    requires pieces != [] && !Blank(pieces[0])
    requires |shifted| == |items|
    requires forall i :: 0 <= i < |shifted| ==>
               0 < shifted[i] < |pieces| && !Blank(pieces[shifted[i]]) && items[i] == Strip(pieces[shifted[i]])
    requires forall i, j :: 0 <= i < j < |shifted| ==> shifted[i] < shifted[j]
    requires forall j :: 1 <= j < |pieces| && !Blank(pieces[j]) ==> j in shifted
    ensures Selects(pieces, [Strip(pieces[0])] + items, idx)
  {
    idx := [0] + shifted;
    FirstItems(pieces, items, shifted);
    FirstIncreasing(shifted);
    FirstCovers(pieces, shifted);
  }

  lemma FirstItems(pieces: seq<string>, items: seq<string>, shifted: seq<nat>)
    requires pieces != [] && !Blank(pieces[0]) && |shifted| == |items|
    requires forall i :: 0 <= i < |shifted| ==>
               0 < shifted[i] < |pieces| && !Blank(pieces[shifted[i]]) && items[i] == Strip(pieces[shifted[i]])
    ensures var idx, all := [0] + shifted, [Strip(pieces[0])] + items;
            forall i :: 0 <= i < |idx| ==> idx[i] < |pieces| && !Blank(pieces[idx[i]]) && all[i] == Strip(pieces[idx[i]])
  {
    var idx, all := [0] + shifted, [Strip(pieces[0])] + items;
    forall i | 1 <= i < |idx|
      ensures idx[i] == shifted[i - 1] && all[i] == items[i - 1]
    {
    }
  }

  lemma FirstIncreasing(shifted: seq<nat>)
    requires forall i :: 0 <= i < |shifted| ==> 0 < shifted[i]
    requires forall i, j :: 0 <= i < j < |shifted| ==> shifted[i] < shifted[j]
    ensures var idx := [0] + shifted; forall i, j :: 0 <= i < j < |idx| ==> idx[i] < idx[j]
  {
    var idx := [0] + shifted;
    forall i, j | 0 <= i < j < |idx|
      ensures idx[i] < idx[j]
    {
      assert idx[j] == shifted[j - 1];
      if i > 0 {
        assert idx[i] == shifted[i - 1];
      }
    }
  }

  lemma FirstCovers(pieces: seq<string>, shifted: seq<nat>)
    requires forall j :: 1 <= j < |pieces| && !Blank(pieces[j]) ==> j in shifted
    ensures forall j :: 0 <= j < |pieces| && !Blank(pieces[j]) ==> j in [0] + shifted
  {
    var idx := [0] + shifted;
    forall j | 0 <= j < |pieces| && !Blank(pieces[j])
      ensures j in idx
    {
      if j > 0 {
        var i :| 0 <= i < |shifted| && shifted[i] == j;
        assert idx[i + 1] == j;
      }
    }
  }

  /** The counted ingredients of a text are its stripped non-blank
      comma-separated pieces, in the order they were written. */
  lemma IngredientsOfText(text: string) returns (idx: seq<nat>)
    ensures Selects(Split(text, ','), IngredientList(text), idx)
  {
    idx := KeptPieces(Split(text, ','));
  }

  /** `validate_ingredients`: `(True, "")` for an accepted input, otherwise
      `False` with the message shown to the user. */
  function ValidateIngredients(ingredients: string): (r: (bool, string))
    ensures r.0 <==> r.1 == ""
    ensures !r.0 ==> r.1 == EmptyMessage || r.1 == TooFewMessage
  {
    if Blank(ingredients) then (false, EmptyMessage)
    else if |IngredientList(ingredients)| < 2 then (false, TooFewMessage)
    else (true, "")
  }

  /** The input names at least two ingredients: two distinct comma-separated
      pieces hold something other than whitespace. */
  ghost predicate HasTwoItems(text: string)
  {
    var pieces := Split(text, ',');
    exists i, j :: 0 <= i < j < |pieces| && !Blank(pieces[i]) && !Blank(pieces[j])
  }

  /** What the validator answers, stated without the list comprehension:
      blank input gets the "enter some" message, an input with two non-blank
      pieces is accepted, and anything else gets the "at least 2" message. */
  lemma ValidateIngredientsMeaning(text: string)
    ensures ValidateIngredients(text) ==
              if AllSpace(text) then (false, EmptyMessage)
              else if HasTwoItems(text) then (true, "")
              else (false, TooFewMessage)
  {
    var pieces := Split(text, ',');
    TwoItemsIff(pieces);
    if AllSpace(text) && HasTwoItems(text) {
      var i, j :| 0 <= i < j < |pieces| && !Blank(pieces[i]) && !Blank(pieces[j]);
      NonBlankPieceIsInText(pieces, i);
    }
  }

  /** A piece with a non-whitespace character makes the whole text non-blank. */
  lemma NonBlankPieceIsInText(pieces: seq<string>, i: nat)
    requires i < |pieces| && !Blank(pieces[i])
    ensures !AllSpace(Join(pieces, ","))
  {
    var k := NonSpaceAt(pieces[i]);
    JoinCharAt(pieces, ",", i, k);
  }

  lemma NonSpaceAt(s: string) returns (k: nat)
    requires !Blank(s)
    ensures k < |s| && !IsSpace(s[k])
  {
    k :| 0 <= k < |s| && !IsSpace(s[k]);
  }

  lemma {:induction false} OneWitness(pieces: seq<string>) returns (i: nat)
    requires |StrippedItems(pieces)| >= 1
    ensures i < |pieces| && !Blank(pieces[i])
  {
    if Blank(pieces[0]) {
      var k := OneWitness(pieces[1..]);
      i := k + 1;
    } else {
      i := 0;
    }
  }

  lemma {:induction false} TwoWitnesses(pieces: seq<string>) returns (i: nat, j: nat)
    requires |StrippedItems(pieces)| >= 2
    ensures i < j < |pieces| && !Blank(pieces[i]) && !Blank(pieces[j])
  {
    if Blank(pieces[0]) {
      var i', j' := TwoWitnesses(pieces[1..]);
      i, j := i' + 1, j' + 1;
    } else {
      var k := OneWitness(pieces[1..]);
      i, j := 0, k + 1;
    }
  }

  lemma {:induction false} OneFromWitness(pieces: seq<string>, i: nat)
    requires i < |pieces| && !Blank(pieces[i])
    ensures |StrippedItems(pieces)| >= 1
  {
    if i > 0 {
      OneFromWitness(pieces[1..], i - 1);
    }
  }

  lemma {:induction false} TwoFromWitnesses(pieces: seq<string>, i: nat, j: nat)
    requires i < j < |pieces| && !Blank(pieces[i]) && !Blank(pieces[j])
    ensures |StrippedItems(pieces)| >= 2
  {
    if i == 0 {
      OneFromWitness(pieces[1..], j - 1);
    } else {
      TwoFromWitnesses(pieces[1..], i - 1, j - 1);
    }
  }

  lemma TwoItemsIff(pieces: seq<string>)
    ensures |StrippedItems(pieces)| >= 2 <==>
              exists i, j :: 0 <= i < j < |pieces| && !Blank(pieces[i]) && !Blank(pieces[j])
  {
    if |StrippedItems(pieces)| >= 2 {
      var i, j := TwoWitnesses(pieces);
    }
    if exists i, j :: 0 <= i < j < |pieces| && !Blank(pieces[i]) && !Blank(pieces[j]) {
      var i, j :| 0 <= i < j < |pieces| && !Blank(pieces[i]) && !Blank(pieces[j]);
      TwoFromWitnesses(pieces, i, j);
    }
  }
}
