/** Transactions of one source still waiting for their response. */
module Pending {
  import opened Numerics
  import CompletionArm

  const UNSPECIFIED: Ip := 0
  const MAX_PENDING: nat := 32
  const TTL_SECS: nat := 32

  /** The transaction's key, when it was last sent, who must answer it (None for anyone), the
      account it spoke for, and what was new about the call. */
  datatype Entry = Entry(key: string, at: nat, responder: Option<Ip>, aor: Option<Hash>, novel: CompletionArm.Novelty) {
    predicate Awaits(key: string, src: Ip) {
      this.key == key && (responder.Some? ==> responder.value == src)
    }

    predicate Young(now: nat) {
      SatSub(now, at) < TTL_SECS
    }
  }

  /** The entries still young enough, in order. */
  function Retained(entries: seq<Entry>, now: nat): (r: seq<Entry>)
    ensures |r| <= |entries|
    ensures forall e :: e in r <==> e in entries && e.Young(now)
  {
    if entries == [] then []
    else
      var last := entries[|entries| - 1];
      var before := Retained(entries[..|entries| - 1], now);
      assert forall e :: e in entries <==> e in entries[..|entries| - 1] || e == last;
      if last.Young(now) then before + [last] else before
  }

  /** The first position from i on holding the key. */
  function IndexOf(entries: seq<Entry>, key: string, i: nat): (r: Option<nat>)
    requires i <= |entries|
    ensures r.Some? ==> i <= r.value < |entries| && entries[r.value].key == key
    ensures r.Some? ==> forall j :: i <= j < r.value ==> entries[j].key != key
    ensures r.None? ==> forall j :: i <= j < |entries| ==> entries[j].key != key
    decreases |entries| - i
  {
    if i == |entries| then None
    else if entries[i].key == key then Some(i)
    else IndexOf(entries, key, i + 1)
  }

  /** The first position from i on whose entry this answer may claim. */
  function ClaimIndex(entries: seq<Entry>, key: string, src: Ip, i: nat): (r: Option<nat>)
    requires i <= |entries|
    ensures r.Some? ==> i <= r.value < |entries| && entries[r.value].Awaits(key, src)
    ensures r.None? ==> forall j :: i <= j < |entries| ==> !entries[j].Awaits(key, src)
    decreases |entries| - i
  {
    if i == |entries| then None
    else if entries[i].Awaits(key, src) then Some(i)
    else ClaimIndex(entries, key, src, i + 1)
  }

  predicate UniqueKeys(entries: seq<Entry>) {
    forall i, j :: 0 <= i < j < |entries| ==> entries[i].key != entries[j].key
  }

  predicate Valid(entries: seq<Entry>) {
    UniqueKeys(entries) && |entries| <= MAX_PENDING
  }

  /** Prunes, then refreshes a retransmission in place or adds a new transaction while there
      is room. */
  function Remembered(entries: seq<Entry>, e: Entry): seq<Entry> {
    var young := Retained(entries, e.at);
    match IndexOf(young, e.key, 0)
    case Some(i) => young[i := e]
    case None => if |young| < MAX_PENDING then young + [e] else young
  }

  /** The entry an answer claims, if any, and the entries left. */
  function Claimed(entries: seq<Entry>, key: string, src: Ip): (Option<Entry>, seq<Entry>) {
    match ClaimIndex(entries, key, src, 0)
    case Some(i) => (Some(entries[i]), entries[..i] + entries[i + 1..])
    case None => (None, entries)
  }

  lemma {:induction false} RetainedKeepsUnique(entries: seq<Entry>, now: nat)
    requires UniqueKeys(entries)
    ensures UniqueKeys(Retained(entries, now))
  {
    if entries != [] {
      var before := entries[..|entries| - 1];
      RetainedKeepsUnique(before, now);
      forall i | 0 <= i < |Retained(before, now)|
        ensures Retained(before, now)[i].key != entries[|entries| - 1].key
      {
        assert Retained(before, now)[i] in before;
      }
    }
  }

  /** The entries that have waited less than 32 seconds. */
  function Recent(entries: seq<Entry>, now: nat): set<Entry> {
    set x | x in entries && SatSub(now, x.at) < 32
  }

  /** Is there room for the entry? Its key still waits, or fewer than 32 others do. */
  predicate HasRoom(entries: seq<Entry>, e: Entry) {
    (exists x :: x in Recent(entries, e.at) && x.key == e.key) || |Recent(entries, e.at)| < 32
  }

  lemma RecentOnce(entries: seq<Entry>, now: nat)
    requires UniqueKeys(entries) && entries != []
    ensures var before, last := entries[..|entries| - 1], entries[|entries| - 1];
            && UniqueKeys(before)
            && |Recent(entries, now)| == |Recent(before, now)| + if last.Young(now) then 1 else 0
  {
    var before, last := entries[..|entries| - 1], entries[|entries| - 1];
    assert forall x :: x in entries <==> x in before || x == last;
    if last.Young(now) {
      LastIsNew(entries);
      assert Recent(entries, now) == Recent(before, now) + {last};
    } else {
      assert Recent(entries, now) == Recent(before, now);
    }
  }

  lemma LastIsNew(entries: seq<Entry>)
    requires UniqueKeys(entries) && entries != []
    ensures entries[|entries| - 1] !in entries[..|entries| - 1]
  {
  }

  lemma {:induction false} RetainedAreRecent(entries: seq<Entry>, now: nat)
    requires UniqueKeys(entries)
    ensures |Retained(entries, now)| == |Recent(entries, now)|
  {
    hide Recent;
    if entries == [] {
      NoneRecent(entries, now);
    } else {
      RecentOnce(entries, now);
      RetainedAreRecent(entries[..|entries| - 1], now);
    }
  }

  lemma NoneRecent(entries: seq<Entry>, now: nat)
    requires entries == []
    ensures Recent(entries, now) == {}
  {
  }

  /** Exactly the recent entries under other keys stay, and the new one is there exactly when
      there is room for it; keys stay unique and the table bounded. */
  lemma RememberedLaws(entries: seq<Entry>, e: Entry)
    requires Valid(entries)
    ensures Valid(Remembered(entries, e))
    ensures |Remembered(entries, e)| <= |entries| + 1
    ensures forall x :: x in Remembered(entries, e) <==>
              if x.key == e.key then x == e && HasRoom(entries, e) else x in Recent(entries, e.at)
  {
    RetainedKeepsUnique(entries, e.at);
    RetainedAreRecent(entries, e.at);
    var young, r := Retained(entries, e.at), Remembered(entries, e);
    match IndexOf(young, e.key, 0)
    case Some(i) =>
      assert r[i] == e && young[i] in Recent(entries, e.at);
      forall x ensures x in r <==> if x.key == e.key then x == e else x in Recent(entries, e.at) {
        RefreshedHolds(young, i, e, x);
      }
    case None =>
      forall x ensures x in r <==> if x.key == e.key then x == e && |young| < MAX_PENDING else x in young {
        assert x in young ==> x.key != e.key;
      }
  }

  lemma RefreshedHolds(young: seq<Entry>, i: nat, e: Entry, x: Entry)
    requires UniqueKeys(young) && i < |young| && young[i].key == e.key
    ensures x in young[i := e] <==> if x.key == e.key then x == e else x in young
  {
    var r := young[i := e];
    assert r[i] == e;
    if x in young && x.key != e.key {
      var k :| 0 <= k < |young| && young[k] == x;
      assert r[k] == x;
    }
    if x in r && x != e {
      var k :| 0 <= k < |r| && r[k] == x;
      assert young[k] == x;
    }
  }

  /** A claim removes exactly the entry it returns; no other entry has its key. */
  lemma ClaimedLaws(entries: seq<Entry>, key: string, src: Ip)
    requires Valid(entries)
    ensures var (got, left) := Claimed(entries, key, src);
            && Valid(left)
            && |left| + (if got.Some? then 1 else 0) == |entries|
            && (got.Some? ==> got.value in entries && got.value.Awaits(key, src))
            && (got.None? ==> left == entries && forall x :: x in entries ==> !x.Awaits(key, src))
            && (forall x :: x in left <==> x in entries && (got.Some? ==> x.key != key))
  {
    var (got, left) := Claimed(entries, key, src);
    if got.Some? {
      var i := ClaimIndex(entries, key, src, 0).value;
      forall x | x in entries && x.key != key ensures x in left {
        var k :| 0 <= k < |entries| && entries[k] == x;
        assert left[if k < i then k else k - 1] == x;
      }
    }
  }

  /** The table as the source keeps it. */
  class PendingAuth {
    var entries: seq<Entry>

    constructor ()
      ensures entries == []
    {
      entries := [];
    }

    /** Remembers a transaction. */
    method Remember(key: string, now: nat, responder: Option<Ip>, aor: Option<Hash>, novel: CompletionArm.Novelty)
      modifies this
      ensures entries == Remembered(old(entries), Entry(key, now, responder, aor, novel))
    {
      var young: seq<Entry> := [];
      for i := 0 to |entries|
        invariant young == Retained(entries[..i], now)
        invariant entries == old(entries)
      {
        assert entries[..i + 1][..i] == entries[..i];
        if SatSub(now, entries[i].at) < TTL_SECS {
          young := young + [entries[i]];
        }
      }
      assert entries[..|entries|] == entries;
      entries := young;
      for i := 0 to |entries|
        invariant IndexOf(young, key, 0) == IndexOf(young, key, i)
        invariant entries == young
      {
        if entries[i].key == key {
          entries := entries[i := Entry(key, now, responder, aor, novel)];
          return;
        }
      }
      if |entries| < MAX_PENDING {
        entries := entries + [Entry(key, now, responder, aor, novel)];
      }
    }

    /** Claims the transaction an answer from `src` belongs to. */
    method Claim(key: string, src: Ip) returns (claimed: Option<Entry>)
      modifies this
      ensures (claimed, entries) == Claimed(old(entries), key, src)
    {
      for i := 0 to |entries|
        invariant ClaimIndex(entries, key, src, 0) == ClaimIndex(entries, key, src, i)
        invariant entries == old(entries)
      {
        var e := entries[i];
        if e.key == key && (e.responder.Some? ==> e.responder.value == src) {
          entries := entries[..i] + entries[i + 1..];
          return Some(e);
        }
      }
      return None;
    }
  }
}
