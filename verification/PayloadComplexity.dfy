/** The gateway's complexity check: a stack of pending nodes against a recursive reading of the limits. */
module PayloadComplexity {
  import opened Json

  const MAX_JSON_DEPTH := 16
  const MAX_JSON_ITEMS := 4096

  // ---- What the limits mean ----

  predicate DepthOk(v: Json, depth: nat)
    decreases v
  {
    && depth <= MAX_JSON_DEPTH
    && (v.Obj? ==> forall i | 0 <= i < |v.fields| :: DepthOk(v.fields[i].value, depth + 1))
    && (v.Arr? ==> forall i | 0 <= i < |v.items| :: DepthOk(v.items[i], depth + 1))
  }

  predicate AllFinite(v: Json) {
    match v
    case Obj(fields) => forall i | 0 <= i < |fields| :: AllFinite(fields[i].value)
    case Arr(items) => forall i | 0 <= i < |items| :: AllFinite(items[i])
    case Float(finite, _) => finite
    case _ => true
  }

  /** Container entries, at every depth. */
  function Entries(v: Json): nat {
    match v
    case Obj(fields) => |fields| + EntriesOfFields(fields)
    case Arr(items) => |items| + EntriesOfItems(items)
    case _ => 0
  }

  function EntriesOfFields(fields: seq<Field>): nat {
    if fields == [] then 0 else Entries(fields[0].value) + EntriesOfFields(fields[1..])
  }

  function EntriesOfItems(items: seq<Json>): nat {
    if items == [] then 0 else Entries(items[0]) + EntriesOfItems(items[1..])
  }

  // ---- The pending nodes ----

  datatype Pending = Pending(value: Json, depth: nat)

  function FromFields(fields: seq<Field>, depth: nat): (s: seq<Pending>)
    ensures |s| == |fields|
    ensures forall i | 0 <= i < |s| :: s[i] == Pending(fields[i].value, depth)
  {
    seq(|fields|, i requires 0 <= i < |fields| => Pending(fields[i].value, depth))
  }

  function FromItems(items: seq<Json>, depth: nat): (s: seq<Pending>)
    ensures |s| == |items|
    ensures forall i | 0 <= i < |s| :: s[i] == Pending(items[i], depth)
  {
    seq(|items|, i requires 0 <= i < |items| => Pending(items[i], depth))
  }

  function Children(p: Pending): seq<Pending> {
    match p.value
    case Obj(fields) => FromFields(fields, p.depth + 1)
    case Arr(items) => FromItems(items, p.depth + 1)
    case _ => []
  }

  ghost function Total(stack: seq<Pending>): nat {
    if stack == [] then 0 else Entries(stack[0].value) + Total(stack[1..])
  }

  lemma {:induction false} TotalAppends(a: seq<Pending>, b: seq<Pending>)
    ensures Total(a + b) == Total(a) + Total(b)
  {
    if a == [] {
      assert a + b == b;
    } else {
      TotalAppends(a[1..], b);
      assert (a + b)[1..] == a[1..] + b;
    }
  }

  lemma {:induction false} TotalOfFields(fields: seq<Field>, depth: nat)
    ensures Total(FromFields(fields, depth)) == EntriesOfFields(fields)
  {
    if fields != [] {
      TotalOfFields(fields[1..], depth);
      assert FromFields(fields, depth)[1..] == FromFields(fields[1..], depth);
    }
  }

  lemma {:induction false} TotalOfItems(items: seq<Json>, depth: nat)
    ensures Total(FromItems(items, depth)) == EntriesOfItems(items)
  {
    if items != [] {
      TotalOfItems(items[1..], depth);
      assert FromItems(items, depth)[1..] == FromItems(items[1..], depth);
    }
  }

  ghost predicate AllShallow(stack: seq<Pending>) {
    forall i | 0 <= i < |stack| :: DepthOk(stack[i].value, stack[i].depth)
  }

  ghost predicate AllFiniteIn(stack: seq<Pending>) {
    forall i | 0 <= i < |stack| :: AllFinite(stack[i].value)
  }

  /** Replacing a node by its children keeps all three accounts. */
  lemma PopKeepsAccounts(rest: seq<Pending>, p: Pending)
    ensures Total(rest + [p]) == |Children(p)| + Total(rest + Children(p))
    ensures AllShallow(rest + [p]) <==> AllShallow(rest + Children(p)) && p.depth <= MAX_JSON_DEPTH
    ensures AllFiniteIn(rest + [p]) <==> AllFiniteIn(rest + Children(p)) && (p.value.Float? ==> p.value.finite)
  {
    TotalAppends(rest, [p]);
    TotalAppends(rest, Children(p));
    match p.value {
      case Obj(fields) => TotalOfFields(fields, p.depth + 1);
      case Arr(items) => TotalOfItems(items, p.depth + 1);
      case _ =>
    }
    ChildrenDecide(p);
    AllAppends(rest, [p]);
    AllAppends(rest, Children(p));
    assert [p][0] == p;
  }

  lemma ChildrenDecide(p: Pending)
    ensures DepthOk(p.value, p.depth) <==> AllShallow(Children(p)) && p.depth <= MAX_JSON_DEPTH
    ensures AllFinite(p.value) <==> AllFiniteIn(Children(p)) && (p.value.Float? ==> p.value.finite)
  {
    match p.value
    case Obj(fields) =>
      assert forall i | 0 <= i < |fields| :: Children(p)[i] == Pending(fields[i].value, p.depth + 1);
    case Arr(items) =>
      assert forall i | 0 <= i < |items| :: Children(p)[i] == Pending(items[i], p.depth + 1);
    case _ =>
  }

  lemma AllAppends(a: seq<Pending>, b: seq<Pending>)
    ensures AllShallow(a + b) <==> AllShallow(a) && AllShallow(b)
    ensures AllFiniteIn(a + b) <==> AllFiniteIn(a) && AllFiniteIn(b)
  {
    assert forall i | 0 <= i < |a| :: (a + b)[i] == a[i];
    assert forall i | 0 <= i < |b| :: (a + b)[|a| + i] == b[i];
  }

  /** The nodes below a value, which bound the number of iterations. */
  ghost function Nodes(stack: seq<Pending>): nat {
    |stack| + Total(stack)
  }

  datatype Verdict = Accepted | TooComplex | Unrecognised

  /** The check accepts exactly the values within the limits, and a refusal names a true cause. */
  method ValidatePayloadComplexity(payload: Json) returns (verdict: Verdict)
    ensures verdict.Accepted? <==> DepthOk(payload, 0) && AllFinite(payload) && Entries(payload) <= MAX_JSON_ITEMS
    ensures verdict.TooComplex? ==> !DepthOk(payload, 0) || Entries(payload) > MAX_JSON_ITEMS
    ensures verdict.Unrecognised? ==> !AllFinite(payload)
  {
    hide DepthOk, AllFinite, Entries, Children;
    var stack := [Pending(payload, 0)];
    var itemCount := 0;
    while stack != []
      invariant itemCount + Total(stack) == Entries(payload) && itemCount <= MAX_JSON_ITEMS
      invariant AllShallow(stack) <==> DepthOk(payload, 0)
      invariant AllFiniteIn(stack) <==> AllFinite(payload)
      decreases Nodes(stack)
    {
      var node, rest := stack[|stack| - 1], stack[..|stack| - 1];
      assert stack == rest + [node];
      PopKeepsAccounts(rest, node);
      if node.depth > MAX_JSON_DEPTH {
        return TooComplex;
      }
      if node.value.Float? && !node.value.finite {
        return Unrecognised;
      }
      stack := rest + Children(node);
      itemCount := itemCount + |Children(node)|;
      if itemCount > MAX_JSON_ITEMS {
        return TooComplex;
      }
    }
    return Accepted;
  }
}
