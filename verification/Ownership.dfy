/**
 A single pass that finds values with more than one owner, as
 scripts/workbench-environment.ts makes it over a `Map` of owners.
 */
module Ownership {
  import opened Order

  datatype Claim = Claim(value: string, owner: string)

  /** A value found to be shared: who held it, and who claims it too. */
  datatype Shared = Shared(value: string, holder: string, claimant: string)

  datatype Ledger = Ledger(owners: map<string, string>, shared: seq<Shared>)

  const Empty := Ledger(map[], [])

  /** One claim. The claimant becomes the owner, always or only of a value not yet held.
      An owner with an empty name is not noticed. */
  function Step(l: Ledger, c: Claim, takeOver: bool): Ledger {
    var held := c.value in l.owners && l.owners[c.value] != "";
    Ledger(
      if held && !takeOver then l.owners else l.owners[c.value := c.owner],
      if held then l.shared + [Shared(c.value, l.owners[c.value], c.owner)] else l.shared)
  }

  function Run(l: Ledger, claims: seq<Claim>, takeOver: bool): Ledger {
    if claims == [] then l else Step(Run(l, claims[..|claims| - 1], takeOver), claims[|claims| - 1], takeOver)
  }

  lemma RunStep(l: Ledger, claims: seq<Claim>, k: nat, takeOver: bool)
    requires k < |claims|
    ensures Run(l, claims[..k + 1], takeOver) == Step(Run(l, claims[..k], takeOver), claims[k], takeOver)
  {
    assert claims[..k + 1][..k] == claims[..k];
  }

  lemma RunLast(l: Ledger, front: seq<Claim>, c: Claim, takeOver: bool)
    ensures Run(l, front + [c], takeOver) == Step(Run(l, front, takeOver), c, takeOver)
  {
    assert (front + [c])[..|front|] == front;
  }

  lemma {:induction false} RunConcat(l: Ledger, a: seq<Claim>, b: seq<Claim>, takeOver: bool)
    ensures Run(l, a + b, takeOver) == Run(Run(l, a, takeOver), b, takeOver)
  {
    if b == [] {
      assert a + b == a;
    } else {
      var front, c := b[..|b| - 1], b[|b| - 1];
      RunConcat(l, a, front, takeOver);
      assert b == front + [c] && a + b == a + front + [c];
      RunLast(l, a + front, c, takeOver);
      RunLast(Run(l, a, takeOver), front, c, takeOver);
    }
  }

  method Record(l: Ledger, claims: seq<Claim>, takeOver: bool) returns (r: Ledger)
    ensures r == Run(l, claims, takeOver)
  {
    var owners, shared := l.owners, l.shared;
    for k := 0 to |claims|
      invariant Ledger(owners, shared) == Run(l, claims[..k], takeOver)
    {
      RunStep(l, claims, k, takeOver);
      var value := claims[k].value;
      if value in owners && owners[value] != "" {
        shared := shared + [Shared(value, owners[value], claims[k].owner)];
        if takeOver { owners := owners[value := claims[k].owner]; }
      } else {
        owners := owners[value := claims[k].owner];
      }
    }
    assert claims[..|claims|] == claims;
    r := Ledger(owners, shared);
  }

  function Values(claims: seq<Claim>): (values: seq<string>)
    ensures |values| == |claims| && forall i :: 0 <= i < |claims| ==> values[i] == claims[i].value
  {
    seq(|claims|, i requires 0 <= i < |claims| => claims[i].value)
  }

  predicate Named(claims: seq<Claim>) {
    forall i :: 0 <= i < |claims| ==> claims[i].owner != ""
  }

  lemma {:induction false} OwnersAre(claims: seq<Claim>, takeOver: bool)
    requires Named(claims)
    ensures var owners := Run(Empty, claims, takeOver).owners;
      && (forall v :: v in owners <==> v in Values(claims))
      && (forall v :: v in owners ==> owners[v] != "")
  {
    if claims != [] {
      var front, last := claims[..|claims| - 1], claims[|claims| - 1];
      OwnersAre(front, takeOver);
      assert Values(claims) == Values(front) + [last.value];
    }
  }

  /** Nothing is found shared exactly if all claimed values are distinct. */
  lemma {:induction false} NothingSharedIff(claims: seq<Claim>, takeOver: bool)
    requires Named(claims)
    ensures Run(Empty, claims, takeOver).shared == [] <==> Distinct(Values(claims))
  {
    if claims != [] {
      var front, last := claims[..|claims| - 1], claims[|claims| - 1];
      NothingSharedIff(front, takeOver);
      OwnersAre(front, takeOver);
      var values := Values(front);
      assert Values(claims) == values + [last.value];
      if last.value in values {
        var i :| 0 <= i < |values| && values[i] == last.value;
        assert Values(claims)[i] == Values(claims)[|front|];
      } else {
        assert forall i :: 0 <= i < |values| ==> values[i] in values;
        DistinctStep(values, last.value);
      }
    }
  }

  // ----- what is reported

  /** The claim whose owner holds its value after all claims: the last one for the value where
      claimants take over, otherwise the first that has a name. */
  ghost predicate Holds(claims: seq<Claim>, i: nat, takeOver: bool) {
    && i < |claims| && claims[i].owner != ""
    && if takeOver then forall k :: i < k < |claims| ==> claims[k].value != claims[i].value
       else forall k :: 0 <= k < i && claims[k].value == claims[i].value ==> claims[k].owner == ""
  }

  /** Claim `j` repeats a value that claim `i` holds at that moment. */
  ghost predicate Repeats(claims: seq<Claim>, i: nat, j: nat, takeOver: bool) {
    i < j < |claims| && claims[i].value == claims[j].value && Holds(claims[..j], i, takeOver)
  }

  predicate HeldBy(owners: map<string, string>, value: string, owner: string) {
    value in owners && owners[value] == owner
  }

  lemma HoldsStep(claims: seq<Claim>, i: nat, takeOver: bool)
    requires claims != [] && i < |claims| - 1
    ensures Holds(claims, i, takeOver)
       <==> Holds(claims[..|claims| - 1], i, takeOver) && (takeOver ==> claims[|claims| - 1].value != claims[i].value)
  {
    var k := |claims| - 1;
    assert forall j :: 0 <= j < k ==> claims[..k][j] == claims[j];
  }

  /** The owner in the table is the owner of the claim that holds the value. */
  lemma {:induction false} HolderOwns(claims: seq<Claim>, i: nat, takeOver: bool)
    requires Holds(claims, i, takeOver)
    ensures HeldBy(Run(Empty, claims, takeOver).owners, claims[i].value, claims[i].owner)
  {
    var front := claims[..|claims| - 1];
    if i < |front| {
      HoldsStep(claims, i, takeOver);
      HolderOwns(front, i, takeOver);
    } else if !takeOver {
      NoHolder(front, claims[i].value);
    }
  }

  /** A value none of whose claimants has a name is free. */
  lemma {:induction false} NoHolder(claims: seq<Claim>, value: string)
    requires forall k :: 0 <= k < |claims| && claims[k].value == value ==> claims[k].owner == ""
    ensures var owners := Run(Empty, claims, false).owners; value in owners ==> owners[value] == ""
  {
    if claims != [] { NoHolder(claims[..|claims| - 1], value); }
  }

  /** A value held in the table has a claim that holds it. */
  lemma {:induction false} HolderOf(claims: seq<Claim>, value: string, takeOver: bool) returns (i: nat)
    requires var owners := Run(Empty, claims, takeOver).owners; value in owners && owners[value] != ""
    ensures Holds(claims, i, takeOver) && claims[i].value == value
    ensures HeldBy(Run(Empty, claims, takeOver).owners, value, claims[i].owner)
  {
    var k := |claims| - 1;
    var front, l := claims[..k], Run(Empty, claims[..k], takeOver);
    var held := claims[k].value in l.owners && l.owners[claims[k].value] != "";
    if claims[k].value == value && !(held && !takeOver) {
      i := k;
      if !takeOver { NothingHeld(front, value); }
    } else {
      i := HolderOf(front, value, takeOver);
      HoldsStep(claims, i, takeOver);
    }
  }

  lemma {:induction false} NothingHeld(claims: seq<Claim>, value: string)
    requires var owners := Run(Empty, claims, false).owners; !(value in owners && owners[value] != "")
    ensures forall k :: 0 <= k < |claims| && claims[k].value == value ==> claims[k].owner == ""
  {
    if claims != [] { NothingHeld(claims[..|claims| - 1], value); }
  }

  function Report(claims: seq<Claim>, i: nat, j: nat): Shared
    requires i < |claims| && j < |claims|
  {
    Shared(claims[j].value, claims[i].owner, claims[j].owner)
  }

  lemma RepeatsFront(claims: seq<Claim>, i: nat, j: nat, takeOver: bool)
    requires claims != [] && j < |claims| - 1
    ensures var front := claims[..|claims| - 1];
      Repeats(front, i, j, takeOver) <==> Repeats(claims, i, j, takeOver)
  {
    assert claims[..|claims| - 1][..j] == claims[..j];
  }

  /** Every report is a genuine repeat. */
  lemma {:induction false} ReportIsRepeat(claims: seq<Claim>, takeOver: bool, s: Shared) returns (i: nat, j: nat)
    requires s in Run(Empty, claims, takeOver).shared
    ensures Repeats(claims, i, j, takeOver) && s == Report(claims, i, j)
  {
    var k := |claims| - 1;
    var front := claims[..k];
    if s in Run(Empty, front, takeOver).shared {
      i, j := ReportIsRepeat(front, takeOver, s);
      RepeatsFront(claims, i, j, takeOver);
    } else {
      i := HolderOf(front, claims[k].value, takeOver);
      j := k;
    }
  }

  /** And every repeat is reported. */
  lemma {:induction false} RepeatIsReported(claims: seq<Claim>, takeOver: bool, i: nat, j: nat)
    requires Repeats(claims, i, j, takeOver)
    ensures Report(claims, i, j) in Run(Empty, claims, takeOver).shared
  {
    var k := |claims| - 1;
    if j < k {
      RepeatsFront(claims, i, j, takeOver);
      RepeatIsReported(claims[..k], takeOver, i, j);
    } else {
      HolderOwns(claims[..k], i, takeOver);
    }
  }

  /** What is reported are exactly the repeats, with the name of the holder and of the claimant who repeats. */
  lemma ReportedIff(claims: seq<Claim>, takeOver: bool, s: Shared)
    ensures s in Run(Empty, claims, takeOver).shared
       <==> exists i: nat, j: nat :: Repeats(claims, i, j, takeOver) && s == Report(claims, i, j)
  {
    if s in Run(Empty, claims, takeOver).shared {
      var i, j := ReportIsRepeat(claims, takeOver, s);
    }
    if i: nat, j: nat :| Repeats(claims, i, j, takeOver) && s == Report(claims, i, j) {
      RepeatIsReported(claims, takeOver, i, j);
    }
  }
}
