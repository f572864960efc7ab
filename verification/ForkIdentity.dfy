/**
 The identity of a fork, kept in three JSON files (scripts/workbench-fork.ts,
 lines 36-148). An object is modelled as a finite map, so the order of keys is
 not part of the model. URL parsing is a parameter.
 */
module ForkIdentity {
  import opened Text

  /** A number, told apart as `Object.is` does. */
  datatype Number = NegativeZero | Infinite(positive: bool) | Finite(value: real)

  datatype Json =
    | Undefined
    | Null
    | Bool(b: bool)
    | Num(n: Number)
    | Str(s: string)
    | Arr(items: seq<Json>)
    | Obj(fields: map<string, Json>)

  predicate Nullish(v: Json) {
    v.Undefined? || v.Null?
  }

  /** The elements of an array by their index, as property names. */
  function Indexed(items: seq<Json>): map<string, Json> {
    if items == [] then map[] else Indexed(items[..|items| - 1])[Decimal(|items| - 1) := items[|items| - 1]]
  }

  lemma {:induction false} IndexedAt(items: seq<Json>, i: nat)
    requires i < |items|
    ensures Decimal(i) in Indexed(items) && Indexed(items)[Decimal(i)] == items[i]
  {
    var n := |items| - 1;
    if i < n {
      IndexedAt(items[..n], i);
    }
  }

  function Characters(s: string): seq<Json> {
    seq(|s|, i requires 0 <= i < |s| => Str([s[i]]))
  }

  /** `{ ...v }`: the own enumerable properties. */
  function Spread(v: Json): map<string, Json> {
    match v
    case Obj(fields) => fields
    case Arr(items) => Indexed(items)
    case Str(s) => Indexed(Characters(s))
    case _ => map[]
  }

  function Own(v: Json, key: string): Json {
    if key in Spread(v) then Spread(v)[key] else Undefined
  }

  /** `v[key]` for a value that is neither null nor undefined. */
  function Prop(v: Json, key: string): Json {
    if v.Arr? && key == "length" then Num(Finite(|v.items| as real))
    else if v.Str? && key == "length" then Num(Finite(|v.s| as real))
    else Own(v, key)
  }

  // ----- the structural difference

  function Item(items: seq<Json>, i: nat): Json {
    if i < |items| then items[i] else Undefined
  }

  predicate Container(v: Json) {
    v.Obj? || v.Arr?
  }

  function ItemPath(prefix: string, i: nat): string {
    prefix + "[" + Decimal(i) + "]"
  }

  function FieldPath(prefix: string, k: string): string {
    if prefix == "" then k else prefix + "." + k
  }

  /** The paths at which `actual` differs from `expected`, without their order. */
  function Differences(actual: Json, expected: Json, prefix: string): set<string>
    decreases expected
  {
    match expected
    case Arr(items) =>
      if !actual.Arr? then {prefix}
      else set i, p | 0 <= i < |items| && p in Differences(Item(actual.items, i), items[i], ItemPath(prefix, i)) :: p
    case Obj(fields) =>
      if !Container(actual) then {prefix}
      else set k, p | k in fields && p in Differences(Prop(actual, k), fields[k], FieldPath(prefix, k)) :: p
    case _ => if actual == expected then {} else {prefix}
  }

  datatype Step = Index(i: nat) | Key(key: string)

  /** What is found along a path in the expected value. */
  function ExpectedAt(v: Json, path: seq<Step>): Option<Json>
    decreases |path|
  {
    if path == [] then Some(v)
    else
      match path[0]
      case Index(i) => if v.Arr? && i < |v.items| then ExpectedAt(v.items[i], path[1..]) else None
      case Key(k) => if v.Obj? && k in v.fields then ExpectedAt(v.fields[k], path[1..]) else None
  }

  /** What the program reads along a path in the actual value. */
  function ActualAt(v: Json, path: seq<Step>): Json
    decreases |path|
  {
    if path == [] then v
    else
      match path[0]
      case Index(i) => if v.Arr? then ActualAt(Item(v.items, i), path[1..]) else Undefined
      case Key(k) => if Container(v) then ActualAt(Prop(v, k), path[1..]) else Undefined
  }

  /** The two values are alike, leaving out what is inside them. */
  predicate Alike(actual: Json, expected: Json) {
    match expected
    case Arr(_) => actual.Arr?
    case Obj(_) => Container(actual)
    case _ => actual == expected
  }

  predicate AlikeAt(actual: Json, expected: Json, path: seq<Step>) {
    var e := ExpectedAt(expected, path);
    e.Some? ==> Alike(ActualAt(actual, path), e.value)
  }

  /** Everywhere inside `expected`, `actual` holds something alike. */
  ghost predicate Contains(actual: Json, expected: Json) {
    forall path :: AlikeAt(actual, expected, path)
  }

  lemma ContainsItem(actual: Json, expected: Json, i: nat)
    requires Contains(actual, expected) && expected.Arr? && actual.Arr? && i < |expected.items|
    ensures Contains(Item(actual.items, i), expected.items[i])
  {
    forall path ensures AlikeAt(Item(actual.items, i), expected.items[i], path) {
      assert AlikeAt(actual, expected, [Index(i)] + path);
      assert ([Index(i)] + path)[1..] == path;
    }
  }

  lemma ContainsField(actual: Json, expected: Json, k: string)
    requires Contains(actual, expected) && expected.Obj? && Container(actual) && k in expected.fields
    ensures Contains(Prop(actual, k), expected.fields[k])
  {
    forall path ensures AlikeAt(Prop(actual, k), expected.fields[k], path) {
      assert AlikeAt(actual, expected, [Key(k)] + path);
      assert ([Key(k)] + path)[1..] == path;
    }
  }

  lemma {:induction false} ContainedHasNone(actual: Json, expected: Json, prefix: string)
    requires Contains(actual, expected)
    ensures Differences(actual, expected, prefix) == {}
    decreases expected
  {
    assert AlikeAt(actual, expected, []);
    match expected
    case Arr(items) =>
      forall i | 0 <= i < |items| ensures Differences(Item(actual.items, i), items[i], ItemPath(prefix, i)) == {} {
        ContainsItem(actual, expected, i);
        ContainedHasNone(Item(actual.items, i), items[i], ItemPath(prefix, i));
      }
    case Obj(fields) =>
      forall k | k in fields ensures Differences(Prop(actual, k), fields[k], FieldPath(prefix, k)) == {} {
        ContainsField(actual, expected, k);
        ContainedHasNone(Prop(actual, k), fields[k], FieldPath(prefix, k));
      }
    case _ =>
  }

  lemma {:induction false} UnlikeDiffers(actual: Json, expected: Json, prefix: string, path: seq<Step>)
    requires !AlikeAt(actual, expected, path)
    ensures Differences(actual, expected, prefix) != {}
    decreases |path|
  {
    if path == [] {
      assert prefix in Differences(actual, expected, prefix);
    } else {
      match path[0]
      case Index(i) =>
        if actual.Arr? { UnlikeDiffers(Item(actual.items, i), expected.items[i], ItemPath(prefix, i), path[1..]); }
      case Key(k) =>
        if Container(actual) { UnlikeDiffers(Prop(actual, k), expected.fields[k], FieldPath(prefix, k), path[1..]); }
    }
  }

  /** No difference is reported exactly if the expected value is contained in the actual. */
  lemma NoDifferenceIffContained(actual: Json, expected: Json, prefix: string)
    ensures Differences(actual, expected, prefix) == {} <==> Contains(actual, expected)
  {
    forall path ensures AlikeAt(actual, expected, path) || Differences(actual, expected, prefix) != {} {
      if !AlikeAt(actual, expected, path) { UnlikeDiffers(actual, expected, prefix, path); }
    }
    if Contains(actual, expected) { ContainedHasNone(actual, expected, prefix); }
  }

  lemma {:induction false} NoDifferenceFromItself(v: Json, prefix: string)
    ensures Differences(v, v, prefix) == {}
  {
    match v
    case Arr(items) =>
      forall i | 0 <= i < |items| ensures Differences(Item(items, i), items[i], ItemPath(prefix, i)) == {} {
        NoDifferenceFromItself(items[i], ItemPath(prefix, i));
      }
    case Obj(fields) =>
      forall k | k in fields ensures Differences(Prop(v, k), fields[k], FieldPath(prefix, k)) == {} {
        NoDifferenceFromItself(fields[k], FieldPath(prefix, k));
      }
    case _ =>
  }

  /** An array may be longer than expected: what follows is not compared. */
  lemma LongerArrayPasses(items: seq<Json>, more: seq<Json>, prefix: string)
    ensures Differences(Arr(items + more), Arr(items), prefix) == {}
  {
    forall i | 0 <= i < |items| ensures Differences(Item(items + more, i), items[i], ItemPath(prefix, i)) == {} {
      NoDifferenceFromItself(items[i], ItemPath(prefix, i));
    }
  }
}
