/** What one operation of a JSON Patch does to a document, read off the paths into it before and
    after (sections 4.1 to 4.3 of RFC 6902). */
module PatchLaws {
  import opened Json
  import opened JsonPatch

  function Parent(path: seq<string>): seq<string>
    requires path != []
  {
    path[..|path| - 1]
  }

  function Last(path: seq<string>): string
    requires path != []
  {
    path[|path| - 1]
  }

  predicate InObject(doc: Json, path: seq<string>) {
    path != [] && match Lookup(doc, Parent(path)) case Some(Obj(_)) => true case _ => false
  }

  predicate InArray(doc: Json, path: seq<string>) {
    path != [] && match Lookup(doc, Parent(path)) case Some(Arr(_)) => true case _ => false
  }

  // ---------- When it applies ----------

  /** The place exists, or can be made: a member of an object always can, and an element of an
      array up to its end. */
  predicate Addable(node: Json, token: string) {
    match node
    case Obj(_) => true
    case Arr(items) => token == "-" || exists i :: 0 <= i <= |items| && token == Itoa(i)
    case _ => false
  }

  lemma {:induction false} AppliesExactly(doc: Json, op: Op)
    ensures ApplyOp(doc, op).Some? <==>
              if op.path == [] then op.verb != Remove
              else if op.verb == Add then
                var parent := Lookup(doc, Parent(op.path)); parent.Some? && Addable(parent.value, Last(op.path))
              else
                Lookup(doc, op.path).Some?
    decreases |op.path|
  {
    if |op.path| == 1 {
      var token := op.path[0];
      assert op.path[1..] == [] && Parent(op.path) == [];
      LeafApplies(doc, op.verb, token, op.value);
    } else if |op.path| > 1 {
      assert Parent(op.path)[1..] == Parent(op.path[1..]);
      var child := Child(doc, op.path[0]);
      if child.Some? {
        AppliesExactly(child.value, op.(path := op.path[1..]));
      }
    }
  }

  lemma LeafApplies(node: Json, verb: Verb, token: string, value: Json)
    ensures ApplyLeaf(node, verb, token, value).Some? <==>
              if verb == Add then Addable(node, token) else Child(node, token).Some?
  {
    if node.Arr? {
      forall i: nat ensures ParseIndex(token) == Some(i) <==> token == Itoa(i) {
        IndexTokens(token, i);
      }
      DashIsNoIndex();
    }
  }

  lemma DashIsNoIndex()
    ensures ParseIndex("-") == None
  {
    assert "-"[0] == '-' && '-' in "-";
  }

  // ---------- What it leaves alone ----------

  /** Where two paths part. */
  predicate PartAt(path: seq<string>, other: seq<string>, n: nat) {
    n < |path| && n < |other| && path[..n] == other[..n] && path[n] != other[n]
  }

  /** Everything that parts from the path keeps its value, except that in an array whose elements
      move the others are found at their new places. */
  lemma {:induction false} OthersStay(doc: Json, op: Op, other: seq<string>, n: nat)
    requires PartAt(op.path, other, n) && ApplyOp(doc, op).Some?
    requires n < |op.path| - 1 || op.verb == Replace || InObject(doc, op.path)
    ensures Lookup(ApplyOp(doc, op).value, other) == Lookup(doc, other)
    decreases |op.path|
  {
    var token := op.path[0];
    if |op.path| == 1 {
      assert Parent(op.path) == [] && Lookup(doc, []) == Some(doc);
      OtherChildren(doc, op.verb, token, other[0], op.value);
    } else {
      var inner := op.(path := op.path[1..]);
      var child := Child(doc, token).value;
      ChildReplaced(doc, token, ApplyOp(child, inner).value);
      if n == 0 {
        OtherChild(doc, token, ApplyOp(child, inner).value, other[0]);
      } else {
        assert Parent(op.path)[1..] == Parent(inner.path);
        assert inner.path[..n - 1] == op.path[..n][1..] && other[1..][..n - 1] == other[..n][1..];
        OthersStay(child, inner, other[1..], n - 1);
      }
    }
  }

  lemma ChildReplaced(doc: Json, token: string, child: Json)
    requires Child(doc, token).Some?
    ensures Child(WithChild(doc, token, child), token) == Some(child)
  {
  }

  lemma OtherChild(doc: Json, token: string, child: Json, other: string)
    requires Child(doc, token).Some? && other != token
    ensures Child(WithChild(doc, token, child), other) == Child(doc, other)
  {
    if doc.Arr? {
      DifferentIndices(token, other);
    }
  }

  lemma DifferentIndices(token: string, other: string)
    requires other != token
    ensures ParseIndex(token).Some? ==> ParseIndex(other) != ParseIndex(token)
  {
    if ParseIndex(token).Some? {
      IndexTokens(token, ParseIndex(token).value);
      IndexTokens(other, ParseIndex(token).value);
    }
  }

  lemma OtherChildren(node: Json, verb: Verb, token: string, other: string, value: Json)
    requires ApplyLeaf(node, verb, token, value).Some? && other != token && (node.Obj? || verb == Replace)
    ensures Child(ApplyLeaf(node, verb, token, value).value, other) == Child(node, other)
  {
    if node.Arr? {
      DifferentIndices(token, other);
    }
  }

  // ---------- What it changes ----------

  /** What the operation does to the object or array it addresses a place in. */
  lemma {:induction false} AtParent(doc: Json, op: Op)
    requires op.path != [] && ApplyOp(doc, op).Some?
    ensures Lookup(doc, Parent(op.path)).Some? && Lookup(ApplyOp(doc, op).value, Parent(op.path)).Some?
    ensures Lookup(ApplyOp(doc, op).value, Parent(op.path))
         == ApplyLeaf(Lookup(doc, Parent(op.path)).value, op.verb, Last(op.path), op.value)
    decreases |op.path|
  {
    if |op.path| > 1 {
      var inner := op.(path := op.path[1..]);
      var child := Child(doc, op.path[0]).value;
      assert Parent(op.path)[1..] == Parent(inner.path);
      AtParent(child, inner);
      ChildReplaced(doc, op.path[0], ApplyOp(child, inner).value);
    }
  }

  lemma {:induction false} LookupStep(doc: Json, path: seq<string>)
    requires path != []
    ensures var parent := Lookup(doc, Parent(path));
            Lookup(doc, path) == if parent.None? then None else Child(parent.value, Last(path))
    decreases |path|
  {
    if |path| > 1 {
      assert Parent(path)[1..] == Parent(path[1..]);
      var child := Child(doc, path[0]);
      if child.Some? {
        LookupStep(child.value, path[1..]);
      }
    } else {
      assert path[1..] == [];
    }
  }

  /** Removing a member: the path leads nowhere. */
  lemma RemovedIsGone(doc: Json, op: Op)
    requires op.verb == Remove && InObject(doc, op.path) && ApplyOp(doc, op).Some?
    ensures Lookup(ApplyOp(doc, op).value, op.path) == None
  {
    AtParent(doc, op);
    LookupStep(ApplyOp(doc, op).value, op.path);
  }

  /** Adding or replacing: the path leads to the value; after "-" the last element is the value. */
  lemma WrittenIsThere(doc: Json, op: Op)
    requires op.verb != Remove && ApplyOp(doc, op).Some?
    ensures !(op.verb == Add && InArray(doc, op.path) && Last(op.path) == "-") ==>
              Lookup(ApplyOp(doc, op).value, op.path) == Some(op.value)
  {
    if op.path != [] {
      AtParent(doc, op);
      LookupStep(ApplyOp(doc, op).value, op.path);
      LeafWritten(Lookup(doc, Parent(op.path)).value, op.verb, Last(op.path), op.value);
    }
  }

  lemma LeafWritten(node: Json, verb: Verb, token: string, value: Json)
    requires verb != Remove && ApplyLeaf(node, verb, token, value).Some?
    ensures !(verb == Add && node.Arr? && token == "-") ==>
              Child(ApplyLeaf(node, verb, token, value).value, token) == Some(value)
  {
  }

  /** The elements from `i` on, one place further. */
  predicate Inserted(before: seq<Json>, i: nat, value: Json, after: seq<Json>) {
    && i <= |before| && |after| == |before| + 1
    && (forall j | 0 <= j < i :: after[j] == before[j])
    && after[i] == value
    && (forall j | i <= j < |before| :: after[j + 1] == before[j])
  }

  /** In an array, adding and removing move exactly the later elements, by one place, and "-" is
      the place behind the last one. */
  lemma ElementsMove(doc: Json, op: Op)
    requires InArray(doc, op.path) && ApplyOp(doc, op).Some?
    ensures var before, after := Lookup(doc, Parent(op.path)).value, Lookup(ApplyOp(doc, op).value, Parent(op.path));
            && after.Some? && after.value.Arr?
            && match op.verb
               case Add =>
                 exists i: nat :: Inserted(before.items, i, op.value, after.value.items)
                   && Last(op.path) == if Last(op.path) == "-" && i == |before.items| then "-" else Itoa(i)
               case Remove =>
                 exists i: nat, value :: Inserted(after.value.items, i, value, before.items) && Last(op.path) == Itoa(i)
               case Replace =>
                 exists i: nat :: i < |before.items| && Last(op.path) == Itoa(i)
                   && after.value.items == before.items[i := op.value]
  {
    AtParent(doc, op);
    var after := Lookup(ApplyOp(doc, op).value, Parent(op.path)).value;
    LeafMoves(Lookup(doc, Parent(op.path)).value, op.verb, Last(op.path), op.value, after);
  }

  lemma LeafMoves(node: Json, verb: Verb, token: string, value: Json, after: Json)
    requires node.Arr? && ApplyLeaf(node, verb, token, value) == Some(after)
    ensures after.Arr?
    ensures match verb
            case Add =>
              exists i: nat :: Inserted(node.items, i, value, after.items)
                && token == if token == "-" && i == |node.items| then "-" else Itoa(i)
            case Remove => exists i: nat, gone :: Inserted(after.items, i, gone, node.items) && token == Itoa(i)
            case Replace =>
              exists i: nat :: i < |node.items| && token == Itoa(i) && after.items == node.items[i := value]
  {
    DashIsNoIndex();
    if verb == Add && token == "-" {
      assert Inserted(node.items, |node.items|, value, after.items);
    } else {
      var i := ParseIndex(token).value;
      IndexTokens(token, i);
      if verb == Add {
        assert Inserted(node.items, i, value, after.items);
      } else if verb == Remove {
        assert Inserted(after.items, i, node.items[i], node.items);
      } else {
        assert i < |node.items| && token == Itoa(i) && after.items == node.items[i := value];
      }
    }
  }
}
