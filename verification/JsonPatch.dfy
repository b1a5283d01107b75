/** JSON Patch (RFC 6902) over decoded pointers: a path is the list of reference
    tokens that RFC 6901 reads from the pointer string. */
module JsonPatch {
  import opened Json

  datatype Verb = Add | Replace | Remove

  datatype Op = Op(verb: Verb, path: seq<string>, value: Json)

  function Child(doc: Json, token: string): Option<Json> {
    match doc
    case Obj(fields) => if token in fields then Some(fields[token]) else None
    case Arr(items) =>
      (match ParseIndex(token)
       case Some(i) => if i < |items| then Some(items[i]) else None
       case None => None)
    case _ => None
  }

  /** What a path leads to. */
  function Lookup(doc: Json, path: seq<string>): Option<Json>
    decreases |path|
  {
    if path == [] then
      Some(doc)
    else
      match Child(doc, path[0])
      case None => None
      case Some(child) => Lookup(child, path[1..])
  }

  lemma LookupOne(doc: Json, token: string)
    ensures Lookup(doc, [token]) == Child(doc, token)
  {
    assert [token][1..] == [];
  }

  function WithChild(doc: Json, token: string, child: Json): Json
    requires Child(doc, token).Some?
  {
    match doc
    case Obj(fields) => Obj(fields[token := child])
    case Arr(items) => Arr(items[ParseIndex(token).value := child])
  }

  /** Sections 4.1, 4.2 and 4.3 of RFC 6902 at the last token of a path. */
  function ApplyLeaf(doc: Json, verb: Verb, token: string, value: Json): Option<Json> {
    match doc
    case Obj(fields) =>
      (match verb
       case Add => Some(Obj(fields[token := value]))
       case Replace => if token in fields then Some(Obj(fields[token := value])) else None
       case Remove => if token in fields then Some(Obj(fields - {token})) else None)
    case Arr(items) =>
      if verb == Add && token == "-" then Some(Arr(items + [value])) else
      (match ParseIndex(token)
       case None => None
       case Some(i) =>
         match verb
         case Add => if i <= |items| then Some(Arr(items[..i] + [value] + items[i..])) else None
         case Replace => if i < |items| then Some(Arr(items[i := value])) else None
         case Remove => if i < |items| then Some(Arr(items[..i] + items[i + 1..])) else None)
    case _ => None
  }

  function ApplyOp(doc: Json, op: Op): Option<Json>
    decreases |op.path|
  {
    if op.path == [] then
      if op.verb == Remove then None else Some(op.value)
    else if |op.path| == 1 then
      ApplyLeaf(doc, op.verb, op.path[0], op.value)
    else
      match Child(doc, op.path[0])
      case None => None
      case Some(child) =>
        match ApplyOp(child, op.(path := op.path[1..]))
        case None => None
        case Some(child') => Some(WithChild(doc, op.path[0], child'))
  }

  /** Operations are applied in order, each to the result of the one before; the first
      failure fails the whole patch (section 5 of RFC 6902). */
  function ApplyAll(doc: Json, ops: seq<Op>): Option<Json>
    decreases |ops|
  {
    if ops == [] then
      Some(doc)
    else
      match ApplyOp(doc, ops[0])
      case None => None
      case Some(doc') => ApplyAll(doc', ops[1..])
  }

  lemma {:induction false} ApplyConcat(doc: Json, ops: seq<Op>, more: seq<Op>)
    ensures ApplyAll(doc, ops + more)
         == match ApplyAll(doc, ops) { case None => None case Some(doc') => ApplyAll(doc', more) }
    decreases |ops|
  {
    if ops == [] {
      assert ops + more == more;
    } else {
      assert (ops + more)[1..] == ops[1..] + more;
      match ApplyOp(doc, ops[0])
      case None =>
      case Some(doc') => ApplyConcat(doc', ops[1..], more);
    }
  }

  /** The same operations, one level further down. */
  function Under(token: string, ops: seq<Op>): (under: seq<Op>)
    ensures |under| == |ops|
    ensures forall i | 0 <= i < |ops| :: under[i] == ops[i].(path := [token] + ops[i].path)
  {
    if ops == [] then [] else [ops[0].(path := [token] + ops[0].path)] + Under(token, ops[1..])
  }

  /** An operation that addresses a child itself acts inside its parent: replacing is always
      replacing the child, but adding is only so when the parent is an object. */
  predicate Liftable(parent: Json, ops: seq<Op>) {
    forall op | op in ops && op.path == [] :: op.verb == Replace || (op.verb == Add && parent.Obj?)
  }

  /** Operations below a child change that child as if it were the whole document. */
  lemma {:induction false} Descend(doc: Json, token: string, ops: seq<Op>)
    requires Child(doc, token).Some?
    requires Liftable(doc, ops)
    ensures ApplyAll(doc, Under(token, ops))
         == match ApplyAll(Child(doc, token).value, ops) {
              case None => None
              case Some(child) => Some(WithChild(doc, token, child))
            }
    decreases |ops|
  {
    var child := Child(doc, token).value;
    if ops == [] {
      assert WithChild(doc, token, child) == doc;
    } else {
      var op := ops[0];
      var lifted := Under(token, ops)[0];
      assert lifted.path == [token] + op.path && lifted.path[1..] == op.path;
      assert Under(token, ops)[1..] == Under(token, ops[1..]);
      assert op in ops;
      assert lifted.(path := lifted.path[1..]) == op;
      match ApplyOp(child, op)
      case None =>
        assert ApplyOp(doc, lifted) == None;
      case Some(child') =>
        var doc' := WithChild(doc, token, child');
        assert ApplyOp(doc, lifted) == Some(doc');
        assert Child(doc', token) == Some(child');
        Descend(doc', token, ops[1..]);
        match ApplyAll(child', ops[1..])
        case None =>
        case Some(last) => assert WithChild(doc', token, last) == WithChild(doc, token, last);
    }
  }
}
