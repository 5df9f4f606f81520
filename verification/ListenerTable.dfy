/**
The listener table as a value: rows by primary key with tombstones, what holds of it whenever the
registry's lock is free, and what each kind of write keeps.
*/
module ListenerTable {
  import opened Wrappers
  import opened Text
  import opened PortSpec
  import opened ListenerModel
  import opened GenerationCheck

  type Rows = map<nat, Listener>

  datatype Version = Version(number: nat, reason: string, snapshot: Listener)

  type History = map<nat, seq<Version>>

  /** The rows the panel shows and compiles. */
  function LiveRows(rows: Rows): Rows {
    map id | id in rows && !rows[id].deleted :: rows[id]
  }

  /** Keys are positive, were handed out before nextId, and name their row; UNIQUE(name) also covers tombstones. */
  ghost predicate Shape(rows: Rows, nextId: nat) {
    && 0 < nextId
    && (forall id | id in rows :: 0 < id < nextId && rows[id].id == id)
    && (forall a, b | a in rows && b in rows && a != b :: rows[a].name != rows[b].name)
  }

  /** No row of `live` other than `self` clashes with the candidate. */
  ghost predicate PeaceWith(rules: Rules, live: Rows, candidate: Listener, self: nat) {
    forall id | id in live && id != self :: !Clash(rules, candidate, live[id])
  }

  /** No two live listeners, enabled or not, clash. */
  ghost predicate Peace(rules: Rules, live: Rows) {
    forall id | id in live :: PeaceWith(rules, live, live[id], id)
  }

  /** A row as validation leaves it, up to what others have written to its configuration if they have. */
  ghost predicate Kept(rules: Rules, validate: Listener -> Option<Listener>, l: Listener, touched: bool) {
    match touched
    case true => Normal(rules, validate, l)
    case false => Validated(rules, validate, l)
  }

  ghost predicate Normalised(rules: Rules, validate: Listener -> Option<Listener>, live: Rows, touched: set<nat>) {
    forall id | id in live :: Kept(rules, validate, live[id], id in touched)
  }

  /** No row of the table other than `self` has this name. */
  ghost predicate NameUnused(rows: Rows, name: string, self: nat) {
    forall id | id in rows && id != self :: rows[id].name != name
  }

  ghost predicate NamesDiffer(live: Rows) {
    forall a, b | a in live && b in live && a != b :: live[a].name != live[b].name
  }

  lemma LiveNamesDiffer(rows: Rows, nextId: nat)
    requires Shape(rows, nextId)
    ensures NamesDiffer(LiveRows(rows))
  {
  }

  /** `after` is `before` without some of its tombstones, and with others under new names. */
  ghost predicate Purged(before: Rows, after: Rows) {
    && (forall id | id in after :: id in before && (after[id] == before[id] || RenamedTombstone(before[id], after[id])))
    && (forall id | id in before && id !in after :: before[id].deleted)
  }

  /** A tombstone under its name with the key and a time stamp behind it. */
  predicate RenamedTombstone(before: Listener, after: Listener) {
    before.deleted && after == before.(name := after.name)
    && before.name + "__deleted_" + Decimal(before.id) + "_" <= after.name
  }

  lemma PurgedLooksTheSame(before: Rows, after: Rows)
    requires Purged(before, after)
    ensures LiveRows(after) == LiveRows(before)
  {
  }

  lemma PurgedTwice(first: Rows, second: Rows, third: Rows)
    requires Purged(first, second) && Purged(second, third)
    ensures Purged(first, third)
  {
  }

  /** Writing one row, new or not. */
  lemma WriteKeepsShape(rows: Rows, nextId: nat, l: Listener, nextId': nat)
    requires Shape(rows, nextId) && nextId <= nextId'
    requires 0 < l.id < nextId' && NameUnused(rows, l.name, l.id)
    ensures Shape(rows[l.id := l], nextId')
  {
  }

  lemma WriteShows(rows: Rows, l: Listener)
    ensures LiveRows(rows[l.id := l]) == if l.deleted then LiveRows(rows) - {l.id} else LiveRows(rows)[l.id := l]
  {
  }

  lemma JoiningKeepsPeace(rules: Rules, live: Rows, id: nat, l: Listener)
    requires Peace(rules, live) && PeaceWith(rules, live, l, id)
    ensures Peace(rules, live[id := l])
  {
  }

  lemma JoiningManyKeepsPeace(rules: Rules, live: Rows, added: Rows)
    requires Peace(rules, live)
    requires forall id | id in added :: PeaceWith(rules, live + added, added[id], id)
    ensures Peace(rules, live + added)
  {
    var after := live + added;
    forall a | a in after ensures PeaceWith(rules, after, after[a], a) {
      if a !in added {
        assert PeaceWith(rules, live, live[a], a);
        forall b | b in after && b != a ensures !Clash(rules, after[a], after[b]) {
          if b in added {
            ClashIsSymmetric(rules, after[a], after[b]);
          }
        }
      }
    }
  }

  lemma LeavingKeepsPeace(rules: Rules, live: Rows, id: nat)
    requires Peace(rules, live)
    ensures Peace(rules, live - {id})
  {
  }

  /** The clash relation only looks at the endpoint. */
  predicate SameEndpoint(a: Listener, b: Listener) {
    a.port == b.port && a.bind == b.bind && a.listen == b.listen
  }

  lemma SameEndpointSamePeace(rules: Rules, live: Rows, a: Listener, selfA: nat, b: Listener, selfB: nat)
    requires SameEndpoint(a, b) && PeaceWith(rules, live, a, selfA)
    requires selfA == selfB || selfA !in live
    ensures PeaceWith(rules, live, b, selfB)
  {
  }

  /** UPDATE ... SET enabled for the live rows with these keys. */
  function WithEnabled(rows: Rows, ids: set<nat>, enabled: bool): Rows {
    map id | id in rows :: if id in ids && !rows[id].deleted then rows[id].(enabled := enabled) else rows[id]
  }

  lemma EnablingShows(rows: Rows, nextId: nat, ids: set<nat>, enabled: bool)
    ensures LiveRows(WithEnabled(rows, ids, enabled)) == WithEnabled(LiveRows(rows), ids, enabled)
    ensures Shape(rows, nextId) ==> Shape(WithEnabled(rows, ids, enabled), nextId)
  {
  }

  /** Switching listeners on and off changes neither endpoints nor what validation makes of them. */
  lemma EnablingKeepsPeace(rules: Rules, live: Rows, ids: set<nat>, enabled: bool)
    requires Peace(rules, live)
    ensures Peace(rules, WithEnabled(live, ids, enabled))
  {
    var after := WithEnabled(live, ids, enabled);
    forall a | a in after ensures PeaceWith(rules, after, after[a], a) {
      SameEndpointSamePeace(rules, live, live[a], a, after[a], a);
      forall b | b in after && b != a ensures !Clash(rules, after[a], after[b]) {
        assert !Clash(rules, after[a], live[b]);
        assert FirstAddress(after[b]) == FirstAddress(live[b]);
      }
    }
  }

  lemma EnablingKeepsRows(rules: Rules, validate: Listener -> Option<Listener>, live: Rows, touched: set<nat>,
                          ids: set<nat>, enabled: bool)
    requires LawfulValidator(rules, validate) && Normalised(rules, validate, live, touched)
    ensures Normalised(rules, validate, WithEnabled(live, ids, enabled), touched)
  {
    var after := WithEnabled(live, ids, enabled);
    forall id | id in after ensures Kept(rules, validate, after[id], id in touched) {
      assert Kept(rules, validate, live[id], id in touched);
      assert SameUpToPlace(live[id], after[id]);
    }
  }

  // ---------------------------------------------------------------- writers of configurations

  /** The rows the generator loads. */
  function Enabled(live: Rows): Rows {
    map id | id in live && live[id].enabled :: live[id]
  }

  /** The enabled rows nobody is bound to. */
  function Ownerless(live: Rows, bindings: set<(nat, nat)>): Rows {
    map id | id in Enabled(live) && !(exists b | b in bindings :: b.0 == id) :: live[id]
  }

  /** Nothing but configurations has changed, and those only in the rows with these keys. */
  ghost predicate OnlyConfigs(before: Rows, after: Rows, ids: set<nat>) {
    && after.Keys == before.Keys
    && forall id | id in before :: SameButConfig(before[id], after[id]) && (id !in ids ==> after[id] == before[id])
  }

  lemma MoreKeysToo(before: Rows, after: Rows, some: set<nat>, ids: set<nat>)
    requires OnlyConfigs(before, after, some) && some <= ids
    ensures OnlyConfigs(before, after, ids)
  {
  }

  lemma OnlyConfigsTwice(first: Rows, second: Rows, third: Rows, ids: set<nat>)
    requires OnlyConfigs(first, second, ids) && OnlyConfigs(second, third, ids)
    ensures OnlyConfigs(first, third, ids)
  {
  }

  /** The configurations a function wants to write, from what it read of the rows. */
  function Rewritten(live: Rows, snapshot: Rows, rewrite: Listener -> Option<string>): Rows {
    map id | id in live ::
      if id in snapshot && rewrite(snapshot[id]).Some? then live[id].(config := rewrite(snapshot[id]).value) else live[id]
  }

  /** The rows of a snapshot with these keys. */
  function Only(snapshot: Rows, ids: set<nat>): Rows {
    map id | id in snapshot && id in ids :: snapshot[id]
  }

  /** The rows that look different afterwards. */
  function Changed(before: Rows, after: Rows): set<nat> {
    set id | id in before && id in after && after[id] != before[id]
  }

  lemma RewritingIsOnlyConfigs(live: Rows, snapshot: Rows, rewrite: Listener -> Option<string>)
    ensures OnlyConfigs(live, Rewritten(live, snapshot, rewrite), snapshot.Keys)
    ensures forall ids | snapshot.Keys <= ids :: OnlyConfigs(live, Rewritten(live, snapshot, rewrite), ids)
  {
  }

  lemma RewritingNothing(live: Rows, snapshot: Rows, rewrite: Listener -> Option<string>)
    ensures Rewritten(live, Only(snapshot, {}), rewrite) == live
  {
  }

  lemma RewritingOneMore(live: Rows, snapshot: Rows, rewrite: Listener -> Option<string>, done: set<nat>, id: nat)
    requires id in live && id in snapshot && id !in done
    ensures var sofar := Rewritten(live, Only(snapshot, done), rewrite);
            && sofar.Keys == live.Keys
            && Rewritten(live, Only(snapshot, done + {id}), rewrite)
               == if rewrite(snapshot[id]).Some? then sofar[id := sofar[id].(config := rewrite(snapshot[id]).value)] else sofar
  {
    var before, after := Only(snapshot, done), Only(snapshot, done + {id});
    assert forall k | k in live && k != id :: (k in before <==> k in after) && (k in before ==> before[k] == after[k]);
  }

  /** Such writes leave alone what the registry relies on. */
  lemma RewritingKeepsRows(rules: Rules, validate: Listener -> Option<Listener>, before: Rows, after: Rows,
                           touched: set<nat>, ids: set<nat>)
    requires Peace(rules, before) && Normalised(rules, validate, before, touched) && OnlyConfigs(before, after, ids)
    ensures Peace(rules, after) && Normalised(rules, validate, after, touched + Changed(before, after))
  {
    forall a | a in after ensures PeaceWith(rules, after, after[a], a) {
      assert PeaceWith(rules, before, before[a], a) && SameButConfig(before[a], after[a]);
      forall b | b in after && b != a ensures !Clash(rules, after[a], after[b]) {
        assert !Clash(rules, before[a], before[b]) && SameButConfig(before[b], after[b]);
      }
    }
    forall id | id in after ensures Kept(rules, validate, after[id], id in touched + Changed(before, after)) {
      assert Kept(rules, validate, before[id], id in touched) && SameButConfig(before[id], after[id]);
      forall m | SameButConfig(after[id], m) && validate(m).Some? ensures Refitted(m, validate(m).value) {
        assert SameButConfig(before[id], m);
      }
    }
  }

  /** No two listeners the generator refuses next to each other. */
  ghost predicate NoCollision(rules: Rules, live: Rows) {
    forall a, b | a in live && b in live && a != b :: !Collide(rules, live[a], live[b])
  }

  lemma CollideIsSymmetric(rules: Rules, a: Listener, b: Listener)
    ensures Collide(rules, a, b) <==> Collide(rules, b, a)
  {
  }

  /** The generator's own check of rows the registry has accepted comes down to its address relation. */
  lemma StartableIff(rules: Rules, validate: Listener -> Option<Listener>, live: Rows, touched: set<nat>, list: seq<Listener>)
    requires Normalised(rules, validate, live, touched) && NamesDiffer(live) && ListsAll(live, list)
    ensures Startable(rules, list) <==> NoCollision(rules, live)
  {
    if NoCollision(rules, live) {
      forall i | 0 <= i < |list| ensures Fine(rules, list, i) {
        NormalIsFine(rules, validate, live, touched, list, i);
      }
    }
    if Startable(rules, list) {
      forall a, b | a in live && b in live && a != b ensures !Collide(rules, live[a], live[b]) {
        StartableApart(rules, live, list, a, b);
      }
    }
  }

  lemma StartableApart(rules: Rules, live: Rows, list: seq<Listener>, a: nat, b: nat)
    requires ListsAll(live, list) && Startable(rules, list) && a in live && b in live && a != b
    ensures !Collide(rules, live[a], live[b])
  {
    var i :| 0 <= i < |list| && list[i] == live[a];
    var j :| 0 <= j < |list| && list[j] == live[b];
    assert Fine(rules, list, if i < j then i else j);
    CollideIsSymmetric(rules, live[a], live[b]);
  }

  /** Every row once, in any order. */
  ghost predicate ListsAll(live: Rows, list: seq<Listener>) {
    && DistinctKeys(list)
    && (forall l | l in list :: l.id in live && live[l.id] == l)
    && (forall id | id in live :: live[id] in list && live[id].id == id)
  }

  lemma ListingOneMore(live: Rows, list: seq<Listener>, l: Listener)
    requires ListsAll(live, list) && l.id !in live
    ensures ListsAll(live[l.id := l], list + [l])
  {
    var after, longer := live[l.id := l], list + [l];
    forall id | id in after ensures after[id] in longer && after[id].id == id {
      if id == l.id {
        assert longer[|list|] == l;
      } else {
        assert live[id] in list;
      }
    }
    forall i, j | 0 <= i < j < |longer| ensures longer[i].id != longer[j].id {
      assert longer[i] in list;
    }
  }

  lemma NormalIsFine(rules: Rules, validate: Listener -> Option<Listener>, live: Rows, touched: set<nat>,
                     list: seq<Listener>, i: nat)
    requires Normalised(rules, validate, live, touched) && NamesDiffer(live) && ListsAll(live, list)
    requires NoCollision(rules, live) && i < |list|
    ensures Fine(rules, list, i)
  {
    assert list[i] in list && Kept(rules, validate, live[list[i].id], list[i].id in touched);
    forall k | 0 <= k < i ensures Trim(list[k].name) != Trim(list[i].name) {
      assert list[k] in list && Kept(rules, validate, live[list[k].id], list[k].id in touched) && list[k].id != list[i].id;
    }
    forall j | i < j < |list| ensures !Collide(rules, list[i], list[j]) {
      assert list[j] in list && list[j].id != list[i].id;
    }
  }

  /** Peace among straight listeners is enough for it. */
  lemma PeacefulStraightStart(rules: Rules, live: Rows)
    requires Peace(rules, live) && forall id | id in live :: Straight(rules, live[id])
    ensures NoCollision(rules, live)
  {
    forall a, b | a in live && b in live && a != b ensures !Collide(rules, live[a], live[b]) {
      assert PeaceWith(rules, live, live[a], a) && !Clash(rules, live[a], live[b]);
      if Collide(rules, live[a], live[b]) {
        StraightListenersAgree(rules, live[a], live[b]);
      }
    }
  }

  /** The rows of a transaction as they join the table on commit. */
  lemma CommitShows(rows: Rows, staged: Rows)
    requires forall id | id in staged :: id !in rows && !staged[id].deleted
    ensures LiveRows(rows + staged) == LiveRows(rows) + staged
  {
  }

  lemma WritingBelow(rows: Rows, staged: Rows, l: Listener)
    requires l.id !in staged
    ensures (rows + staged)[l.id := l] == rows[l.id := l] + staged
  {
  }

  lemma WritingBeside(rows: Rows, staged: Rows, l: Listener)
    ensures (rows + staged)[l.id := l] == rows + staged[l.id := l]
  {
  }

  lemma RemovingBelow(rows: Rows, staged: Rows, id: nat, next: nat)
    requires Shape(rows + staged, next) && id !in staged
    ensures Shape(rows - {id} + staged, next)
  {
    assert forall k | k in rows - {id} + staged :: k in rows + staged && (rows - {id} + staged)[k] == (rows + staged)[k];
  }

  lemma WritingTwice(live: Rows, id: nat, first: Listener, second: Listener)
    ensures live[id := first][id := second] == live[id := second]
    ensures id in live ==> (live[id := second] == live <==> second == live[id])
  {
  }

  // ---------------------------------------------------------------- batches

  predicate DistinctKeys(batch: seq<Listener>) {
    forall i, j | 0 <= i < j < |batch| :: batch[i].id != batch[j].id
  }

  function Keys(batch: seq<Listener>): set<nat> {
    set l | l in batch :: l.id
  }

  lemma KeysOneMore(batch: seq<Listener>, i: nat)
    requires i < |batch| && DistinctKeys(batch)
    ensures Keys(batch[..i + 1]) == Keys(batch[..i]) + {batch[i].id}
    ensures batch[i].id !in Keys(batch[..i]) && Keys(batch[..i]) <= Keys(batch)
  {
  }

  lemma {:induction false} CountKeys(batch: seq<Listener>)
    requires DistinctKeys(batch)
    ensures |Keys(batch)| == |batch|
  {
    if batch == [] {
      assert Keys(batch) == {};
    } else {
      var n := |batch| - 1;
      KeysOneMore(batch, n);
      assert batch[..n + 1] == batch;
      CountKeys(batch[..n]);
    }
  }

  lemma RemovingWritten(live: Rows, id: nat, l: Listener)
    ensures live[id := l] - {id} == live - {id}
  {
  }

  lemma RemovingOneMore(live: Rows, gone: set<nat>, id: nat)
    ensures live - gone - {id} == live - (gone + {id})
  {
  }

  ghost predicate Keeps(before: Rows, after: Rows) {
    forall id | id in before :: id in after && after[id] == before[id]
  }

  /** `after` is `before` with the created listeners under keys of their own. */
  ghost predicate Added(before: Rows, created: seq<Listener>, after: Rows) {
    && Keeps(before, after)
    && (forall l | l in created :: l.id !in before && l.id in after && after[l.id] == l)
    && (forall id | id in after :: id in before || id in Keys(created))
  }

  lemma LeavingTogether(live: Rows, staged: Rows)
    requires live.Keys !! staged.Keys
    ensures live + staged - staged.Keys == live
  {
  }

  /** Every listener of the batch could be stored next to `live` as far as its endpoint goes. */
  ghost predicate BatchAtPeace(rules: Rules, live: Rows, batch: seq<Listener>) {
    forall i | 0 <= i < |batch| :: PeaceWith(rules, live, batch[i], batch[i].id)
  }

  ghost predicate ClashesLater(rules: Rules, batch: seq<Listener>, i: nat)
    requires i < |batch|
  {
    exists j | i < j < |batch| :: Clash(rules, batch[i], batch[j])
  }

  ghost predicate PairwisePeace(rules: Rules, batch: seq<Listener>) {
    forall i | 0 <= i < |batch| :: !ClashesLater(rules, batch, i)
  }

  ghost predicate BatchNamesUnused(live: Rows, batch: seq<Listener>) {
    forall i | 0 <= i < |batch| ::
      Trim(batch[i].name) != "" && NameUnused(live, Trim(batch[i].name), batch[i].id)
  }

  // ---------------------------------------------------------------- versions

  function VersionsOf(history: History, id: nat): seq<Version> {
    if id in history then history[id] else []
  }

  /** Version numbers of every listener are 1, 2, ..., n. */
  ghost predicate Dense(history: History) {
    forall id, k | id in history && 0 <= k < |history[id]| :: history[id][k].number == k + 1
  }

  /** Nothing is taken out of a history or changed in it. */
  ghost predicate Extends(before: History, after: History) {
    forall id :: VersionsOf(before, id) <= VersionsOf(after, id)
  }

  /** The history after one more snapshot of a row. */
  function Recorded(history: History, row: Listener, reason: string): History {
    var before := VersionsOf(history, row.id);
    history[row.id := before + [Version(|before| + 1, reason, row)]]
  }

  lemma RecordingExtends(history: History, row: Listener, reason: string)
    requires Dense(history)
    ensures Dense(Recorded(history, row, reason)) && Extends(history, Recorded(history, row, reason))
  {
  }

  lemma ExtendsTwice(first: History, second: History, third: History)
    requires Extends(first, second) && Extends(second, third)
    ensures Extends(first, third)
  {
  }

  /** The history after one more snapshot of every row of a batch. */
  function RecordedAll(history: History, batch: seq<Listener>, reason: string): History {
    if batch == [] then history
    else Recorded(RecordedAll(history, batch[..|batch| - 1], reason), batch[|batch| - 1], reason)
  }

  /** Every row of a batch without repeated keys gets exactly one version, and no other listener gets any. */
  lemma {:induction false} RecordedOnceEach(history: History, batch: seq<Listener>, reason: string, k: nat)
    requires DistinctKeys(batch) && k < |batch|
    ensures var id := batch[k].id;
            VersionsOf(RecordedAll(history, batch, reason), id) == VersionsOf(Recorded(history, batch[k], reason), id)
  {
    var front := batch[..|batch| - 1];
    if k < |batch| - 1 {
      assert front[k] == batch[k];
      RecordedOnceEach(history, front, reason, k);
    } else {
      OthersNotRecorded(history, front, reason, batch[k].id);
    }
  }

  lemma {:induction false} OthersNotRecorded(history: History, batch: seq<Listener>, reason: string, id: nat)
    requires forall i | 0 <= i < |batch| :: batch[i].id != id
    ensures VersionsOf(RecordedAll(history, batch, reason), id) == VersionsOf(history, id)
  {
    if batch != [] {
      OthersNotRecorded(history, batch[..|batch| - 1], reason, id);
    }
  }

  /** The version with this number, if it was recorded. */
  function FindVersion(history: History, id: nat, number: int): Option<Version> {
    var versions := VersionsOf(history, id);
    if 1 <= number <= |versions| then Some(versions[number - 1]) else None
  }

  /** What a rollback to a version writes: its snapshot, validated anew. */
  function Restored(validate: Listener -> Option<Listener>, history: History, id: nat, number: int): Option<Listener> {
    var version := FindVersion(history, id, number);
    if version.None? then None else validate(version.value.snapshot.(id := id, deleted := false))
  }

  /** The version recorded last restores the recorded row. */
  lemma LastVersionRestores(validate: Listener -> Option<Listener>, history: History, row: Listener, reason: string)
    requires !row.deleted
    ensures var after := Recorded(history, row, reason);
            Restored(validate, after, row.id, |VersionsOf(after, row.id)|) == validate(row)
  {
  }

  /**
   A snapshot keeps its number for good: under every later history the version with the number a row got is that
   row, it is the only one with that number, and a rollback to it restores what validation makes of the row.
   */
  lemma RecordedVersionStays(validate: Listener -> Option<Listener>, earlier: History, row: Listener, reason: string,
                             history: History)
    requires Dense(history) && Extends(Recorded(earlier, row, reason), history)
    ensures var before := if row.id in earlier then earlier[row.id] else [];
            && row.id in history
            && (exists k | 0 <= k < |history[row.id]| :: history[row.id][k].number == |before| + 1)
            && (forall k | 0 <= k < |history[row.id]| && history[row.id][k].number == |before| + 1 ::
                  && history[row.id][k] == Version(|before| + 1, reason, row)
                  && (!row.deleted ==> Restored(validate, history, row.id, history[row.id][k].number) == validate(row)))
  {
    var before := if row.id in earlier then earlier[row.id] else [];
    var now := VersionsOf(Recorded(earlier, row, reason), row.id);
    assert now <= VersionsOf(history, row.id);
    assert history[row.id][|before|] == now[|before|] == Version(|before| + 1, reason, row);
    assert row.(id := row.id, deleted := false) == row || row.deleted;
  }

  /** What a rollback does, by the numbers the versions carry. */
  lemma RestoredByNumber(validate: Listener -> Option<Listener>, history: History, id: nat, number: int)
    requires Dense(history)
    ensures id in history ==> forall k | 0 <= k < |history[id]| && history[id][k].number == number ::
              Restored(validate, history, id, number) == validate(history[id][k].snapshot.(id := id, deleted := false))
    ensures id !in history || (forall k | 0 <= k < |history[id]| :: history[id][k].number != number) ==>
              Restored(validate, history, id, number).None?
  {
    if id in history && 1 <= number <= |history[id]| {
      assert history[id][number - 1].number == number;
    }
  }

  // ---------------------------------------------------------------- names

  function FreedName(l: Listener): string {
    l.name + "__deleted_" + Decimal(l.id)
  }

  /** A listener renamed to its freed name, and its tombstone. */
  function Renamed(l: Listener): Listener {
    l.(name := FreedName(l))
  }

  function Tombstone(l: Listener): Listener {
    l.(name := FreedName(l), deleted := true)
  }

  /** Two listeners get the same freed name only if they are the same or had different names. */
  lemma FreedNamesDiffer(a: Listener, b: Listener)
    requires a.name == b.name && FreedName(a) == FreedName(b)
    ensures a.id == b.id
  {
    assert FreedName(a)[|a.name| + 10..] == Decimal(a.id) && FreedName(b)[|b.name| + 10..] == Decimal(b.id);
    DecimalIsInjective(a.id, b.id);
  }

  lemma FreedNameIsTrimmed(l: Listener)
    requires l.name != "" && Trimmed(l.name)
    ensures Trimmed(FreedName(l)) && FreedName(l) != ""
  {
  }
}
