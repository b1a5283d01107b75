/** Anchor recognisers and the two functions that strip an anchor from a key. */
module Anchors {
  predicate IsConditionAnchor(key: string) {
    |key| >= 2 && key[0] == '(' && key[|key| - 1] == ')'
  }

  predicate IsMarked(mark: char, key: string) {
    |key| >= 3 && key[0] == mark && key[1] == '(' && key[|key| - 1] == ')'
  }

  predicate IsNegationAnchor(key: string) { IsMarked('X', key) }

  predicate IsAddingAnchor(key: string) { IsMarked('+', key) }

  predicate IsEqualityAnchor(key: string) { IsMarked('=', key) }

  predicate IsExistenceAnchor(key: string) { IsMarked('^', key) }

  /** `removeAnchor`, the stripper used while walking a tree. */
  function RemoveAnchor(key: string): string {
    if IsConditionAnchor(key) then
      key[1..|key| - 1]
    else if IsExistenceAnchor(key) || IsAddingAnchor(key) || IsEqualityAnchor(key) || IsNegationAnchor(key) then
      key[2..|key| - 1]
    else
      key
  }

  /** `getRawKeyIfWrappedWithAttributes`, the stripper used on inserted subtrees. */
  function RawKey(key: string): string {
    if |key| < 2 then
      key
    else if key[0] == '(' && key[|key| - 1] == ')' then
      key[1..|key| - 1]
    else if key[0] in {'$', '^', '+', '='} && key[1] == '(' && key[|key| - 1] == ')' then
      key[2..|key| - 1]
    else
      key
  }

  // ---------- The form of the keys ----------

  /** A name in parentheses behind a mark. */
  function Wrapped(mark: string, name: string): string {
    mark + "(" + name + ")"
  }

  lemma WrappedParts(mark: string, name: string)
    ensures var key := Wrapped(mark, name);
            && |key| == |mark| + |name| + 2 && key[..|mark|] == mark && key[|mark|] == '(' && key[|key| - 1] == ')'
            && key[|mark| + 1..|key| - 1] == name
  {
  }

  /** The recognisers accept exactly the names wrapped behind their mark. */
  lemma Recognised(key: string)
    ensures IsConditionAnchor(key) <==> exists name :: key == Wrapped("", name)
    ensures IsNegationAnchor(key) <==> exists name :: key == Wrapped("X", name)
    ensures IsAddingAnchor(key) <==> exists name :: key == Wrapped("+", name)
    ensures IsEqualityAnchor(key) <==> exists name :: key == Wrapped("=", name)
    ensures IsExistenceAnchor(key) <==> exists name :: key == Wrapped("^", name)
  {
    ConditionRecognised(key);
    MarkRecognised('X', key);
    MarkRecognised('+', key);
    MarkRecognised('=', key);
    MarkRecognised('^', key);
  }

  lemma ConditionRecognised(key: string)
    ensures IsConditionAnchor(key) <==> exists name :: key == Wrapped("", name)
  {
    if IsConditionAnchor(key) {
      assert key == Wrapped("", key[1..|key| - 1]);
    }
  }

  lemma MarkRecognised(mark: char, key: string)
    ensures IsMarked(mark, key) <==> exists name :: key == Wrapped([mark], name)
  {
    if IsMarked(mark, key) {
      assert key == Wrapped([mark], key[2..|key| - 1]);
    }
  }

  /** Both strippers give the name in the parentheses, for the marks they know, and leave every
      other key alone. */
  lemma StrippedName(mark: string, name: string)
    requires |mark| <= 1
    ensures mark in {"", "^", "+", "=", "X"} ==> RemoveAnchor(Wrapped(mark, name)) == name
    ensures mark in {"", "^", "+", "=", "$"} ==> RawKey(Wrapped(mark, name)) == name
  {
    WrappedParts(mark, name);
  }

  lemma UnwrappedStay(key: string)
    ensures (forall mark, name | mark in {"", "^", "+", "=", "X"} :: key != Wrapped(mark, name)) ==>
              RemoveAnchor(key) == key
    ensures (forall mark, name | mark in {"", "^", "+", "=", "$"} :: key != Wrapped(mark, name)) ==>
              RawKey(key) == key
  {
    Recognised(key);
    MarkRecognised('$', key);
  }
}
