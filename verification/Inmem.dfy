/** The in-memory reference store that the stress test checks the real one against.
    (mvstore-stress/src/inmem.rs) */
module Inmem {
  import opened Common
  import opened Scans

  datatype TxnInfo = TxnInfo(snapshot: map<PageNo, Hash>, writeSet: set<PageNo>, readSet: set<PageNo>)

  /** `Fine`, or the panic that ends the test. */
  datatype Outcome = Fine | NotNewer | NotInflight | ConflictDetected | WrongPage

  predicate Greater(a: nat, b: nat) {
    b < a
  }

  /** The greatest version at or below `v`. */
  function AtOrBelow(keys: set<Version>, v: Version): (r: Option<Version>)
    ensures r.Some? ==> r.value in keys && r.value <= v && forall u | u in keys && u <= v :: u <= r.value
    ensures r.None? ==> forall u | u in keys :: v < u
  {
    if v in keys then Some(v) else if v == 0 then None else AtOrBelow(keys, v - 1)
  }

  function SnapshotAt(versions: map<Version, TxnInfo>, v: Version): map<PageNo, Hash> {
    match AtOrBelow(versions.Keys, v)
    case None => map[]
    case Some(u) => versions[u].snapshot
  }

  predicate WritesKnown(t: TxnInfo) {
    t.writeSet <= t.snapshot.Keys
  }

  /** No version between the two, both exclusive, wrote a page in `readSet`. */
  predicate Undisturbed(versions: map<Version, TxnInfo>, from: Version, to: Version, readSet: set<PageNo>) {
    forall v | v in versions && from < v < to :: versions[v].writeSet !! readSet
  }

  function Written(versions: map<Version, TxnInfo>, among: set<Version>): set<PageNo> {
    set v, p | v in among && v in versions && p in versions[v].writeSet :: p
  }

  lemma WrittenDisturbs(versions: map<Version, TxnInfo>, from: Version, to: Version, readSet: set<PageNo>)
    ensures Written(versions, set v | v in versions && from < v < to) !! readSet
      <==> Undisturbed(versions, from, to, readSet)
  {
    var between := set v | v in versions && from < v < to;
    if Written(versions, between) !! readSet {
      forall v | v in versions && from < v < to ensures versions[v].writeSet !! readSet {
        assert v in between;
        assert forall p | p in versions[v].writeSet :: p in Written(versions, between);
      }
    }
  }

  function CommitOutcome(
      versions: map<Version, TxnInfo>, inflight: map<nat, TxnInfo>, id: nat, version: Version,
      from: Version): Outcome {
    if exists v | v in versions :: version <= v then NotNewer
    else if id !in inflight then NotInflight
    else if Undisturbed(versions, from, version, inflight[id].readSet) then Fine
    else ConflictDetected
  }

  /** The snapshot a transaction leaves: its writes on top of the newest version. */
  function Merged(versions: map<Version, TxnInfo>, t: TxnInfo, version: Version): map<PageNo, Hash>
    requires WritesKnown(t)
  {
    if versions == map[] then t.snapshot
    else SnapshotAt(versions, version) + map p | p in t.writeSet :: t.snapshot[p]
  }

  /** The versions, in increasing order. */
  predicate Listed(list: seq<Version>, keys: set<Version>) {
    && (forall i, j | 0 <= i < j < |list| :: list[i] < list[j])
    && (forall i | 0 <= i < |list| :: list[i] in keys)
    && (forall v | v in keys :: v in list)
  }

  lemma ListedAppend(list: seq<Version>, keys: set<Version>, v: Version)
    requires Listed(list, keys) && forall u | u in keys :: u < v
    ensures Listed(list + [v], keys + {v})
  {
  }

  predicate Consistent(versions: map<Version, TxnInfo>, inflight: map<nat, TxnInfo>, nextId: nat, list: seq<Version>) {
    && (forall v | v in versions :: WritesKnown(versions[v]))
    && (forall id | id in inflight :: id < nextId && WritesKnown(inflight[id]))
    && Listed(list, versions.Keys)
  }

  lemma CommitConsistent(
      versions: map<Version, TxnInfo>, inflight: map<nat, TxnInfo>, nextId: nat, list: seq<Version>, id: nat,
      version: Version, t: TxnInfo)
    requires Consistent(versions, inflight, nextId, list) && WritesKnown(t) && forall u | u in versions :: u < version
    ensures Consistent(versions[version := t], inflight - {id}, nextId, list + [version])
  {
    ListedAppend(list, versions.Keys, version);
    assert versions[version := t].Keys == versions.Keys + {version};
  }

  lemma DisjointCount(a: set<PageNo>, b: set<PageNo>)
    ensures |a + b| == |a| + |b| <==> a !! b
  {
    assert a + b == a + (b - a);
    assert b == (b - a) + (b * a);
    assert a !! b <==> b * a == {};
  }

  class Reference {
    var versions: map<Version, TxnInfo>
    var inflight: map<nat, TxnInfo>
    var nextId: nat
    var versionList: seq<Version>

    ghost predicate Valid()
      reads this
    {
      Consistent(versions, inflight, nextId, versionList)
    }

    constructor ()
      ensures Valid() && versions == map[] && inflight == map[] && versionList == []
    {
      versions, inflight, nextId, versionList := map[], map[], 1, [];
    }

    method StartTransaction(from: Version) returns (id: nat)
      requires Valid()
      modifies this
      ensures Valid() && id !in old(inflight)
      ensures inflight == old(inflight)[id := TxnInfo(SnapshotAt(versions, from), {}, {})]
      ensures versions == old(versions) && versionList == old(versionList)
    {
      id := nextId;
      nextId := nextId + 1;
      inflight := inflight[id := TxnInfo(SnapshotAt(versions, from), {}, {})];
    }

    method WritePage(id: nat, p: PageNo, hash: Hash) returns (r: Outcome)
      requires Valid()
      modifies this
      ensures Valid() && versions == old(versions) && versionList == old(versionList)
      ensures r == if id in old(inflight) then Fine else NotInflight
      ensures r == Fine ==> var t := old(inflight)[id];
        inflight == old(inflight)[id := t.(snapshot := t.snapshot[p := hash], writeSet := t.writeSet + {p})]
    {
      if id !in inflight { return NotInflight; }
      var t := inflight[id];
      inflight := inflight[id := t.(snapshot := t.snapshot[p := hash], writeSet := t.writeSet + {p})];
      return Fine;
    }

    /** `data` is the hash of what the store returned, or nothing for an absent page. */
    method VerifyPage(id: nat, p: PageNo, data: Option<Hash>) returns (r: Outcome)
      requires Valid()
      modifies this
      ensures Valid() && versions == old(versions) && versionList == old(versionList)
      ensures r == if id !in old(inflight) then NotInflight
                   else if p in old(inflight)[id].snapshot then
                     if data == Some(old(inflight)[id].snapshot[p]) then Fine else WrongPage
                   else if data == None then Fine else WrongPage
      ensures r == Fine ==> var t := old(inflight)[id]; inflight == old(inflight)[id := t.(readSet := t.readSet + {p})]
    {
      if id !in inflight { return NotInflight; }
      var t := inflight[id];
      if data.None? {
        if p in t.snapshot { return WrongPage; }
      } else {
        if p !in t.snapshot || t.snapshot[p] != data.value { return WrongPage; }
      }
      inflight := inflight[id := t.(readSet := t.readSet + {p})];
      return Fine;
    }

    method NewestVersion() returns (r: Option<Version>)
      ensures if versions == map[] then r.None? else r.Some? && r.value in versions
      ensures forall v | v in versions :: r.Some? && v <= r.value
    {
      if versions == map[] { return None; }
      var last := Least(versions.Keys, Greater);
      return Some(last);
    }

    /** The pages written by versions strictly between the two. */
    method WrittenBetween(from: Version, to: Version) returns (pages: set<PageNo>)
      ensures pages == Written(versions, set v | v in versions && from < v < to)
    {
      pages := {};
      var left := set v | v in versions && from < v < to;
      ghost var all := left;
      while left != {}
        invariant left <= all && pages == Written(versions, all - left)
        decreases |left|
      {
        var v :| v in left;
        ghost var seen := all - left;
        left := left - {v};
        assert all - left == seen + {v};
        pages := pages + versions[v].writeSet;
      }
      assert all - left == all;
    }

    /** The checks of a commit, all of which come before it changes a version. */
    method CheckCommit(id: nat, version: Version, from: Version) returns (r: Outcome)
      ensures r == CommitOutcome(versions, inflight, id, version, from)
    {
      var last := NewestVersion();
      if last.Some? && version <= last.value { return NotNewer; }
      if id !in inflight { return NotInflight; }
      var written := WrittenBetween(from, version);
      var readSet := inflight[id].readSet;
      DisjointCount(written, readSet);
      WrittenDisturbs(versions, from, version, readSet);
      return if |written + readSet| != |written| + |readSet| then ConflictDetected else Fine;
    }

    /** A transaction's writes on top of the newest version, if there is one. */
    method MergeOntoNewest(t: TxnInfo, version: Version) returns (snapshot: map<PageNo, Hash>)
      requires WritesKnown(t) && forall v | v in versions :: v < version
      ensures snapshot == Merged(versions, t, version)
    {
      snapshot := t.snapshot;
      var last := NewestVersion();
      if last.Some? {
        assert AtOrBelow(versions.Keys, version) == last;
        snapshot := versions[last.value].snapshot + map p | p in t.writeSet :: t.snapshot[p];
      }
    }

    method CommitTransaction(id: nat, version: Version, from: Version) returns (r: Outcome)
      requires Valid()
      modifies this
      ensures Valid()
      ensures r == CommitOutcome(old(versions), old(inflight), id, version, from)
      ensures r == Fine ==> var t := old(inflight)[id];
        && versions == old(versions)[version := t.(snapshot := Merged(old(versions), t, version))]
        && versionList == old(versionList) + [version]
        && inflight == old(inflight) - {id}
    {
      r := CheckCommit(id, version, from);
      if r != Fine { return; }
      var t := inflight[id];
      var snapshot := MergeOntoNewest(t, version);
      t := t.(snapshot := snapshot);
      CommitConsistent(versions, inflight, nextId, versionList, id, version, t);
      inflight := inflight - {id};
      versions := versions[version := t];
      versionList := versionList + [version];
    }
  }
}
