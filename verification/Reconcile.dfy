/**
Keeping local rows in step with what was asked for (cluster/sync_nodes.go): the remote nodes bound to a
user, and the mirrors of the nodes of a remote server. What the remote panel answers is an input; the
share material of a node is one text. Any database statement may fail: `works` says which succeed.
*/
module Reconcile {
  import opened Collections
  import opened Wrappers

  datatype Binding = Binding(user: nat, mirror: nat, deleted: bool)

  datatype Mirror = Mirror(server: nat, node: nat, info: string, enabled: bool, deleted: bool)

  /** One node of a remote panel as listed and exported. */
  datatype Node = Node(id: nat, info: string, enabled: bool)

  datatype Entry = Entry(info: string, enabled: bool)

  datatype Refusal = NotFound | UnknownMirror | Duplicate | Database

  type Bindings = map<nat, Binding>
  type Mirrors = map<nat, Mirror>

  /** uidx_user_remote_node also covers tombstones. */
  ghost predicate OnePerPair(bindings: Bindings) {
    forall a, b | a in bindings && b in bindings && a != b ::
      bindings[a].user != bindings[b].user || bindings[a].mirror != bindings[b].mirror
  }

  /** uidx_remote_node also covers tombstones. */
  ghost predicate OnePerNode(mirrors: Mirrors) {
    forall a, b | a in mirrors && b in mirrors && a != b ::
      mirrors[a].server != mirrors[b].server || mirrors[a].node != mirrors[b].node
  }

  predicate Binds(b: Binding, user: nat, mirror: nat) {
    b.user == user && b.mirror == mirror && !b.deleted
  }

  predicate Bound(bindings: Bindings, user: nat, mirror: nat) {
    exists id | id in bindings :: Binds(bindings[id], user, mirror)
  }

  ghost predicate BelowNext(keys: set<nat>, next: nat) {
    forall id | id in keys :: id < next
  }

  /** No row is lost, and those of other users are as they were. */
  ghost predicate OthersKept(before: Bindings, after: Bindings, user: nat) {
    && (forall id | id in before :: id in after && after[id] == before[id].(deleted := after[id].deleted))
    && (forall id | id in before && before[id].user != user :: after[id] == before[id])
    && (forall id | id in after && id !in before :: after[id].user == user)
  }

  /** uniqueUint: the non-zero ids without repetition. */
  method UniqueUint(ids: seq<nat>) returns (out: seq<nat>)
    ensures Distinct(out) && forall x :: x in out <==> x in ids && x != 0
  {
    out := [];
    var seen: set<nat> := {};
    for i := 0 to |ids|
      invariant Distinct(out) && seen == Elements(out)
      invariant forall x :: x in out <==> x in ids[..i] && x != 0
    {
      assert ids[..i + 1] == ids[..i] + [ids[i]];
      if ids[i] != 0 && ids[i] !in seen {
        assert Elements(out + [ids[i]]) == Elements(out) + {ids[i]};
        seen := seen + {ids[i]};
        out := out + [ids[i]];
      }
    }
    assert ids[..|ids|] == ids;
  }

  /** Soft-delete the bindings of a user outside the desired ones. */
  function Trimmed(bindings: Bindings, user: nat, desired: seq<nat>): Bindings {
    map id | id in bindings ::
      if bindings[id].user == user && bindings[id].mirror !in desired then bindings[id].(deleted := true) else bindings[id]
  }

  // ---------------------------------------------------------------- mirrors as a view

  /** The live mirrors of a server by remote node. */
  ghost function View(mirrors: Mirrors, server: nat): map<nat, Entry>
    requires OnePerNode(mirrors)
  {
    map id | id in mirrors && mirrors[id].server == server && !mirrors[id].deleted ::
      mirrors[id].node := Entry(mirrors[id].info, mirrors[id].enabled)
  }

  lemma ViewHas(mirrors: Mirrors, server: nat, node: nat)
    requires OnePerNode(mirrors)
    ensures node in View(mirrors, server) <==>
            exists id | id in mirrors :: mirrors[id].server == server && mirrors[id].node == node && !mirrors[id].deleted
  {
  }

  /** Writing a live row of the server shows as its node's entry. */
  lemma WriteShows(mirrors: Mirrors, id: nat, m: Mirror)
    requires OnePerNode(mirrors) && OnePerNode(mirrors[id := m]) && !m.deleted
    requires id in mirrors ==> mirrors[id].server == m.server && mirrors[id].node == m.node
    ensures View(mirrors[id := m], m.server) == View(mirrors, m.server)[m.node := Entry(m.info, m.enabled)]
  {
    var after := mirrors[id := m];
    assert forall k | k in mirrors && k != id :: after[k] == mirrors[k];
    assert after[id] == m;
  }

  /** What one listed node makes of the view: a new mirror is stored enabled, whatever was listed. */
  function Upserted(view: map<nat, Entry>, n: Node): map<nat, Entry> {
    if n.id == 0 then view
    else view[n.id := Entry(n.info, n.id !in view || n.enabled)]
  }

  function AllUpserted(view: map<nat, Entry>, nodes: seq<Node>): map<nat, Entry> {
    if nodes == [] then view else Upserted(AllUpserted(view, nodes[..|nodes| - 1]), nodes[|nodes| - 1])
  }

  function Listed(nodes: seq<Node>): set<nat> {
    set n | n in nodes && n.id != 0 :: n.id
  }

  lemma ListedOneMore(nodes: seq<Node>, i: nat)
    requires i < |nodes|
    ensures Listed(nodes[..i + 1]) == Listed(nodes[..i]) + if nodes[i].id != 0 then {nodes[i].id} else {}
    ensures nodes[..i + 1][..i] == nodes[..i] && nodes[..i + 1] == nodes[..i] + [nodes[i]]
  {
  }

  /** The pass that disables what the server no longer lists. */
  function OnlyListed(view: map<nat, Entry>, seen: set<nat>): map<nat, Entry> {
    map x | x in view :: if x in seen then view[x] else view[x].(enabled := false)
  }

  /** The last listing of a node, and how many there are. */
  function Last(nodes: seq<Node>, x: nat): Option<Node> {
    if nodes == [] then None
    else if nodes[|nodes| - 1].id == x then Some(nodes[|nodes| - 1])
    else Last(nodes[..|nodes| - 1], x)
  }

  function Times(nodes: seq<Node>, x: nat): nat {
    if nodes == [] then 0 else Times(nodes[..|nodes| - 1], x) + if nodes[|nodes| - 1].id == x then 1 else 0
  }

  lemma {:induction false} ListedHaveLast(nodes: seq<Node>, x: nat)
    requires x != 0
    ensures x in Listed(nodes) <==> Last(nodes, x).Some?
    ensures x in Listed(nodes) <==> Times(nodes, x) > 0
    ensures Last(nodes, x).Some? ==> Last(nodes, x).value.id == x
  {
    if nodes != [] {
      ListedHaveLast(nodes[..|nodes| - 1], x);
      assert nodes == nodes[..|nodes| - 1] + [nodes[|nodes| - 1]];
    }
  }

  lemma {:induction false} UpsertedHolds(view: map<nat, Entry>, nodes: seq<Node>, x: nat)
    requires x != 0
    ensures x in AllUpserted(view, nodes) <==> x in view || Times(nodes, x) > 0
    ensures Times(nodes, x) == 0 && x in view ==> AllUpserted(view, nodes)[x] == view[x]
    ensures Last(nodes, x).Some? ==>
              var last := Last(nodes, x).value;
              && x in AllUpserted(view, nodes) && AllUpserted(view, nodes)[x].info == last.info
              && AllUpserted(view, nodes)[x].enabled == (last.enabled || (x !in view && Times(nodes, x) == 1))
  {
    if nodes != [] {
      UpsertedHolds(view, nodes[..|nodes| - 1], x);
      ListedHaveLast(nodes, x);
      ListedHaveLast(nodes[..|nodes| - 1], x);
    }
  }

  /**
   After a sync every listed node has one mirror with the last listed material, and everything else is
   disabled. Its flag is the last listed one exactly unless the mirror is new, listed once and disabled.
   */
  lemma SyncIsExact(view: map<nat, Entry>, nodes: seq<Node>, x: nat)
    requires x != 0
    ensures x in Listed(nodes) ==> Last(nodes, x).Some?
    ensures var after := OnlyListed(AllUpserted(view, nodes), Listed(nodes));
            if x in Listed(nodes) then
              && x in after && after[x].info == Last(nodes, x).value.info
              && (after[x].enabled == Last(nodes, x).value.enabled <==>
                  x in view || Times(nodes, x) > 1 || Last(nodes, x).value.enabled)
            else
              (x in after <==> x in view) && (x in after ==> after[x] == view[x].(enabled := false))
  {
    UpsertedHolds(view, nodes, x);
    ListedHaveLast(nodes, x);
  }

  /** The first sync of a server with one disabled node leaves its new mirror enabled; the second one disables it. */
  lemma NewDisabledNodeIsEnabled(x: nat, info: string)
    requires x != 0
    ensures var nodes := [Node(x, info, false)];
            var first := OnlyListed(AllUpserted(map[], nodes), Listed(nodes));
            var second := OnlyListed(AllUpserted(first, nodes), Listed(nodes));
            && x in first && first[x] == Entry(info, true)
            && x in second && second[x] == Entry(info, false)
  {
  }

  /** Mirrors of other servers and tombstones are as they were. */
  ghost predicate ForeignKept(before: Mirrors, after: Mirrors, server: nat) {
    && (forall id | id in before && (before[id].server != server || before[id].deleted) ::
          id in after && after[id] == before[id])
    && (forall id | id in after && (after[id].server != server || after[id].deleted) ::
          id in before && after[id] == before[id])
  }

  /** A mirror of the node was removed locally; its key is still taken. */
  predicate Buried(mirrors: Mirrors, server: nat, node: nat) {
    exists id | id in mirrors :: mirrors[id].server == server && mirrors[id].node == node && mirrors[id].deleted
  }

  lemma ForeignKeptTwice(first: Mirrors, second: Mirrors, third: Mirrors, server: nat)
    requires ForeignKept(first, second, server) && ForeignKept(second, third, server)
    ensures ForeignKept(first, third, server)
  {
  }

  lemma BuriedStays(before: Mirrors, after: Mirrors, server: nat, node: nat)
    requires ForeignKept(before, after, server)
    ensures Buried(before, server, node) == Buried(after, server, node)
  {
  }

  /** The rows of a server whose node is not listed any more, to be disabled. */
  function Outdated(mirrors: Mirrors, server: nat, seen: set<nat>): set<nat> {
    set id | id in mirrors && mirrors[id].server == server && !mirrors[id].deleted && mirrors[id].node !in seen
             && mirrors[id].enabled
  }

  /** Some outdated mirrors of the server have been disabled; nothing else has happened. */
  ghost predicate Disabled(before: Mirrors, after: Mirrors, server: nat, seen: set<nat>) {
    && after.Keys == before.Keys
    && forall id | id in before ::
         || after[id] == before[id]
         || (before[id].server == server && !before[id].deleted && before[id].node !in seen
             && after[id] == before[id].(enabled := false))
  }

  lemma DisablingOneMore(before: Mirrors, now: Mirrors, server: nat, seen: set<nat>, id: nat)
    requires Disabled(before, now, server, seen) && id in Outdated(now, server, seen)
    ensures var after := now[id := now[id].(enabled := false)];
            Disabled(before, after, server, seen) && Outdated(after, server, seen) == Outdated(now, server, seen) - {id}
  {
  }

  lemma DisabledShows(before: Mirrors, after: Mirrors, server: nat, seen: set<nat>)
    requires OnePerNode(before) && Disabled(before, after, server, seen)
    ensures OnePerNode(after) && ForeignKept(before, after, server)
    ensures Outdated(after, server, seen) == {} ==> View(after, server) == OnlyListed(View(before, server), seen)
  {
    if Outdated(after, server, seen) == {} {
      forall id | id in after && after[id].server == server && !after[id].deleted && after[id].node !in seen
        ensures !after[id].enabled
      {
        assert id !in Outdated(after, server, seen);
      }
    }
  }

  // ---------------------------------------------------------------- the service

  class Service {
    const works: nat -> bool
    var users: set<nat>
    var mirrors: Mirrors
    var bindings: Bindings
    var nextId: nat
    var clock: nat

    ghost predicate Valid()
      reads this
    {
      && OnePerPair(bindings) && OnePerNode(mirrors)
      && BelowNext(bindings.Keys, nextId) && BelowNext(mirrors.Keys, nextId)
    }

    ghost predicate Healthy()
      reads this`clock
    {
      forall k | clock <= k :: works(k)
    }

    constructor (works: nat -> bool)
      ensures Valid() && this.works == works && users == {} && mirrors == map[] && bindings == map[]
    {
      this.works := works;
      users, mirrors, bindings, nextId, clock := {}, map[], map[], 1, 0;
    }

    method Statement() returns (ok: bool)
      modifies this`clock
      ensures clock == old(clock) + 1 && ok == works(old(clock))
    {
      ok := works(clock);
      clock := clock + 1;
    }

    /** The live mirrors among the given keys. */
    function KnownAmong(desired: seq<nat>): set<nat>
      reads this`mirrors
    {
      set id | id in desired && id in mirrors && !mirrors[id].deleted
    }

    /** The loop body: revive the tombstone of a pair, keep its live row, or create one. */
    method BindOne(tx: Bindings, user: nat, mirror: nat) returns (after: Option<Bindings>)
      requires OnePerPair(tx) && BelowNext(tx.Keys, nextId)
      modifies this`clock, this`nextId
      ensures old(clock) <= clock && old(nextId) <= nextId && (old(Healthy()) ==> Healthy() && after.Some?)
      ensures after.Some? ==>
                && OnePerPair(after.value) && BelowNext(after.value.Keys, nextId) && OthersKept(tx, after.value, user)
                && Bound(after.value, user, mirror)
                && (forall m | m != mirror :: Bound(after.value, user, m) <==> Bound(tx, user, m))
    {
      var read := Statement();
      if !read { return None; }
      if id :| id in tx && tx[id].user == user && tx[id].mirror == mirror {
        if tx[id].deleted {
          var revived := Statement();
          if !revived { return None; }
        }
        var row := Binding(user, mirror, false);
        ghost var result := tx[id := row];
        assert Binds(result[id], user, mirror);
        OnlyPairChanged(tx, id, row);
        return Some(tx[id := row]);
      }
      var created := Statement();
      if !created { return None; }
      var id, row := nextId, Binding(user, mirror, false);
      nextId := nextId + 1;
      assert Binds(tx[id := row][id], user, mirror);
      OnlyPairChanged(tx, id, row);
      return Some(tx[id := row]);
    }

    lemma OnlyPairChanged(tx: Bindings, id: nat, row: Binding)
      requires id in tx ==> tx[id].user == row.user && tx[id].mirror == row.mirror
      ensures forall m | m != row.mirror :: Bound(tx[id := row], row.user, m) <==> Bound(tx, row.user, m)
    {
      var after := tx[id := row];
      forall m | m != row.mirror ensures Bound(after, row.user, m) <==> Bound(tx, row.user, m) {
        if Bound(tx, row.user, m) {
          var k :| k in tx && Binds(tx[k], row.user, m);
          assert after[k] == tx[k];
        }
        if Bound(after, row.user, m) {
          var k :| k in after && Binds(after[k], row.user, m);
          assert tx[k] == after[k];
        }
      }
    }

    /**
     BindUserRemoteNodes, one transaction: afterwards the user is bound to exactly the non-zero ids asked
     for; a refusal changes nothing. Unbinding keeps a tombstone, and binding again revives it.
     */
    method BindUserRemoteNodes(user: nat, ids: seq<nat>) returns (err: Option<Refusal>)
      requires Valid()
      modifies this`bindings, this`clock, this`nextId
      ensures Valid()
      ensures err.Some? ==> bindings == old(bindings)
      ensures err.None? ==> forall m :: Bound(bindings, user, m) <==> m in ids && m != 0
      ensures err.None? ==> OthersKept(old(bindings), bindings, user)
      ensures old(Healthy()) ==>
                && (err.None? <==> user in users && forall m | m in ids && m != 0 :: m in mirrors && !mirrors[m].deleted)
                && (err == Some(NotFound) <==> user !in users)
                && (err == Some(UnknownMirror) <==> user in users && err.Some?)
    {
      var found := Statement();
      if !found || user !in users {
        return Some(if found then NotFound else Database);
      }
      var desired := UniqueUint(ids);
      if |desired| > 0 {
        var counted := Statement();
        if !counted { return Some(Database); }
        CountElements(desired);
        SubsetIsSmaller(KnownAmong(desired), Elements(desired));
        if |KnownAmong(desired)| != |desired| {
          assert KnownAmong(desired) != Elements(desired);
          return Some(UnknownMirror);
        }
        assert forall m | m in desired :: m in KnownAmong(desired) by {
          assert forall m | m in desired :: m in Elements(desired);
        }
      }
      var deleted := Statement();
      if !deleted { return Some(Database); }
      err := BindAll(user, desired);
    }

    /** The rest of the transaction. */
    method BindAll(user: nat, desired: seq<nat>) returns (err: Option<Refusal>)
      requires Valid()
      modifies this`bindings, this`clock, this`nextId
      ensures Valid()
      ensures if err.None? then
                (forall m :: Bound(bindings, user, m) <==> m in desired) && OthersKept(old(bindings), bindings, user)
              else bindings == old(bindings)
      ensures old(Healthy()) ==> err.None?
    {
      var tx := Trimmed(bindings, user, desired);
      TrimmedIsBound(bindings, user, desired);
      ghost var trimmed := tx;
      for i := 0 to |desired|
        invariant old(clock) <= clock && old(nextId) <= nextId && (old(Healthy()) ==> Healthy())
        invariant bindings == old(bindings) && OnePerPair(tx) && BelowNext(tx.Keys, nextId)
        invariant OthersKept(trimmed, tx, user)
        invariant forall m :: Bound(tx, user, m) ==> m in desired
        invariant forall m | m in desired[..i] :: Bound(tx, user, m)
      {
        assert desired[..i + 1] == desired[..i] + [desired[i]];
        ghost var before := tx;
        var after := BindOne(tx, user, desired[i]);
        if after.None? {
          return Some(Database);
        }
        tx := after.value;
        KeptTwice(trimmed, before, tx, user);
      }
      var committed := Statement();
      if !committed {
        return Some(Database);
      }
      assert desired[..|desired|] == desired;
      KeptTwice(bindings, trimmed, tx, user);
      bindings := tx;
      return None;
    }

    lemma TrimmedIsBound(before: Bindings, user: nat, desired: seq<nat>)
      ensures OthersKept(before, Trimmed(before, user, desired), user)
      ensures forall m :: Bound(Trimmed(before, user, desired), user, m) ==> m in desired
    {
    }

    lemma KeptTwice(first: Bindings, second: Bindings, third: Bindings, user: nat)
      requires OthersKept(first, second, user) && OthersKept(second, third, user)
      ensures OthersKept(first, third, user)
    {
    }

    // -------------------------------------------------------------- remote nodes

    /** Write one live mirror, under its own key or a new one. */
    method Write(id: nat, row: Mirror)
      requires Valid() && id <= nextId && !row.deleted
      requires if id in mirrors then
                 mirrors[id].server == row.server && mirrors[id].node == row.node && !mirrors[id].deleted
               else forall k | k in mirrors :: mirrors[k].server != row.server || mirrors[k].node != row.node
      modifies this`mirrors, this`nextId
      ensures Valid() && ForeignKept(old(mirrors), mirrors, row.server)
      ensures View(mirrors, row.server) == View(old(mirrors), row.server)[row.node := Entry(row.info, row.enabled)]
    {
      WriteShows(mirrors, id, row);
      mirrors := mirrors[id := row];
      if id == nextId {
        nextId := nextId + 1;
      }
    }

    /** Update or create the mirror of one listed node; the column default overrides a disabled new one. */
    method Upsert(server: nat, n: Node) returns (err: Option<Refusal>)
      requires Valid() && n.id != 0
      modifies this`mirrors, this`nextId, this`clock
      ensures Valid() && old(clock) <= clock && (old(Healthy()) ==> Healthy())
      ensures ForeignKept(old(mirrors), mirrors, server)
      ensures err.None? ==> View(mirrors, server) == Upserted(View(old(mirrors), server), n)
      ensures err.Some? ==> mirrors == old(mirrors)
      ensures old(Healthy()) ==> err == if Buried(old(mirrors), server, n.id) then Some(Duplicate) else None
    {
      ViewHas(mirrors, server, n.id);
      var read := Statement();
      if read {
        if id :| id in mirrors && mirrors[id].server == server && mirrors[id].node == n.id && !mirrors[id].deleted {
          var saved := Statement();
          if !saved { return Some(Database); }
          Write(id, Mirror(server, n.id, n.info, n.enabled, false));
          return None;
        }
      }
      var created := Statement();
      if !created { return Some(Database); }
      if exists id | id in mirrors :: mirrors[id].server == server && mirrors[id].node == n.id {
        return Some(Duplicate);
      }
      Write(nextId, Mirror(server, n.id, n.info, true, false));
      return None;
    }

    /** The disable pass; its failures are ignored. */
    method DisableUnlisted(server: nat, seen: set<nat>)
      requires Valid()
      modifies this`mirrors, this`clock
      ensures Valid() && ForeignKept(old(mirrors), mirrors, server)
      ensures old(Healthy()) ==> View(mirrors, server) == OnlyListed(View(old(mirrors), server), seen)
    {
      var read := Statement();
      if !read { return; }
      var todo := Outdated(mirrors, server, seen);
      while todo != {}
        invariant todo <= Outdated(mirrors, server, seen) && old(clock) <= clock
        invariant Disabled(old(mirrors), mirrors, server, seen)
        invariant old(Healthy()) ==> todo == Outdated(mirrors, server, seen)
        decreases todo
      {
        var id :| id in todo;
        todo := todo - {id};
        var updated := Statement();
        if updated {
          DisablingOneMore(old(mirrors), mirrors, server, seen, id);
          mirrors := mirrors[id := mirrors[id].(enabled := false)];
        }
      }
      DisabledShows(old(mirrors), mirrors, server, seen);
    }

    /**
     SyncRemoteNodes on the node list the remote answered. Nodes that were removed locally make it fail,
     because their tombstone still holds the key; then the nodes before it have already been written.
     */
    method SyncRemoteNodes(server: nat, nodes: seq<Node>) returns (err: Option<Refusal>)
      requires Valid()
      modifies this`mirrors, this`nextId, this`clock
      ensures Valid() && ForeignKept(old(mirrors), mirrors, server)
      ensures old(Healthy()) ==> (err.None? <==> forall n | n in nodes && n.id != 0 :: !Buried(old(mirrors), server, n.id))
      ensures old(Healthy()) && err.None? ==>
                View(mirrors, server) == OnlyListed(AllUpserted(View(old(mirrors), server), nodes), Listed(nodes))
    {
      var seen: set<nat> := {};
      for i := 0 to |nodes|
        invariant Valid() && old(clock) <= clock && (old(Healthy()) ==> Healthy())
        invariant ForeignKept(old(mirrors), mirrors, server) && seen == Listed(nodes[..i])
        invariant View(mirrors, server) == AllUpserted(View(old(mirrors), server), nodes[..i])
        invariant old(Healthy()) ==> forall n | n in nodes[..i] && n.id != 0 :: !Buried(old(mirrors), server, n.id)
      {
        ListedOneMore(nodes, i);
        if nodes[i].id != 0 {
          seen := seen + {nodes[i].id};
          ghost var before := mirrors;
          BuriedStays(old(mirrors), before, server, nodes[i].id);
          err := Upsert(server, nodes[i]);
          ForeignKeptTwice(old(mirrors), before, mirrors, server);
          if err.Some? {
            assert nodes[i] in nodes;
            return;
          }
        }
      }
      assert nodes[..|nodes|] == nodes;
      ghost var before := mirrors;
      DisableUnlisted(server, seen);
      ForeignKeptTwice(old(mirrors), before, mirrors, server);
      return None;
    }
  }
}
