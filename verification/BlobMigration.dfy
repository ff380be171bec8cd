/**
 The offline migration of permanent blobs from one backend to the other.

 `World` is what survives a crash: the file_blobs table and the objects of the two backends.  A
 history lists the worlds a run goes through, one per durable effect, so that a crash between any
 two effects leaves one of its members.  `Migration` is the program; it extends the history as it
 goes and is proved to take steps of the history only.
 */
module BlobMigration {
  import opened Wrappers
  import opened Ordering
  import opened BlobReader
  import Keyset = KeysetPaging

  datatype Row = Row(backend: string, key: string, size: int, sha: Bytes)

  type Table = map<string, Row>

  datatype World = World(table: Table, source: Objects, target: Objects)

  /** What a run is configured with. */
  datatype Plan = Plan(from: string, to: string, hash: Hashing)

  /** The row names an object that is present with the recorded size and digest. */
  predicate Backed(hash: Hashing, objects: Objects, row: Row) {
    row.key in objects && |objects[row.key]| == row.size && hash.sha(objects[row.key]) == row.sha
  }

  /** What a successful migrateObject has checked: reading back zero bytes does not look at the object. */
  predicate Verified(hash: Hashing, objects: Objects, row: Row) {
    && row.key in objects && row.key == hash.hex(row.sha)
    && if row.size == 0 then hash.sha([]) == row.sha else Backed(hash, objects, row)
  }

  predicate Labelled(row: Row, backend: string, key: string) {
    row.backend == backend && row.key == key
  }

  function Locations(table: Table, backend: string, key: string): set<string> {
    set loc | loc in table && Labelled(table[loc], backend, key)
  }

  /** UPDATE file_blobs SET backend = to WHERE backend = from AND object_key = key. */
  function Relabel(table: Table, plan: Plan, key: string): Table {
    map loc | loc in table ::
      if Labelled(table[loc], plan.from, key) then table[loc].(backend := plan.to) else table[loc]
  }

  // ----- histories

  ghost predicate PutStep(plan: Plan, w: World, w': World) {
    && w'.table == w.table && w'.source == w.source
    && exists content ::
         plan.hash.KeyOf(content) !in w.target && w'.target == w.target[plan.hash.KeyOf(content) := content]
  }

  ghost predicate MoveStep(plan: Plan, w: World, w': World, key: string) {
    && w'.source == w.source && w'.target == w.target
    && Locations(w.table, plan.from, key) != {}
    && (forall loc | loc in Locations(w.table, plan.from, key) :: Verified(plan.hash, w.target, w.table[loc]))
    && w'.table == Relabel(w.table, plan, key)
  }

  ghost predicate Step(plan: Plan, w: World, w': World) {
    w' == w || PutStep(plan, w, w') || exists key :: MoveStep(plan, w, w', key)
  }

  ghost predicate History(plan: Plan, h: seq<World>) {
    plan.from != plan.to && |h| > 0 && forall i | 0 <= i < |h| - 1 :: Step(plan, h[i], h[i + 1])
  }

  /** A run that starts where a crash left the world continues the history of the crashed run. */
  lemma CrashAndResume(plan: Plan, before: seq<World>, at: nat, after: seq<World>)
    requires History(plan, before) && History(plan, after) && at < |before| && after[0] == before[at]
    ensures History(plan, before[..at + 1] + after[1..])
  {
    var h := before[..at + 1] + after[1..];
    forall i | 0 <= i < |h| - 1
      ensures Step(plan, h[i], h[i + 1])
    {
      if i >= at {
        assert h[i] == after[i - at] && h[i + 1] == after[i - at + 1];
      }
    }
  }

  ghost predicate Sound(plan: Plan, w: World) {
    forall loc | loc in w.table ::
      && (w.table[loc].backend == plan.from ==> Backed(plan.hash, w.source, w.table[loc]))
      && (w.table[loc].backend == plan.to ==> Backed(plan.hash, w.target, w.table[loc]))
  }

  /** The destination holds nothing but the empty object under the empty object's key. */
  predicate EmptyKeyClean(plan: Plan, objects: Objects) {
    plan.hash.KeyOf([]) in objects ==> objects[plan.hash.KeyOf([])] == []
  }

  ghost predicate NoCollisionWithEmpty(hash: Hashing) {
    forall content :: hash.KeyOf(content) == hash.KeyOf([]) ==> content == []
  }

  lemma StepKeepsSound(plan: Plan, w: World, w': World)
    requires plan.from != plan.to && Step(plan, w, w') && NoCollisionWithEmpty(plan.hash)
    requires Sound(plan, w) && EmptyKeyClean(plan, w.target)
    ensures Sound(plan, w') && EmptyKeyClean(plan, w'.target)
  {
    if key :| MoveStep(plan, w, w', key) {
      forall loc | loc in w.table && Labelled(w.table[loc], plan.from, key)
        ensures Backed(plan.hash, w'.target, w'.table[loc])
      {
        assert loc in Locations(w.table, plan.from, key);
      }
    }
  }

  /** At every point of every run, crashed and resumed any number of times, each row names an object
      that is on its backend with the recorded size and digest. */
  lemma {:induction false} EveryCrashPointIsSound(plan: Plan, h: seq<World>, i: nat)
    requires History(plan, h) && i < |h| && NoCollisionWithEmpty(plan.hash)
    requires Sound(plan, h[0]) && EmptyKeyClean(plan, h[0].target)
    ensures Sound(plan, h[i]) && EmptyKeyClean(plan, h[i].target)
  {
    if i > 0 {
      EveryCrashPointIsSound(plan, h, i - 1);
      StepKeepsSound(plan, h[i - 1], h[i]);
    }
  }

  /** Rows only ever change from the source's label to the destination's, and objects only appear. */
  lemma {:induction false} HistoryOnlyRelabels(plan: Plan, h: seq<World>, i: nat, j: nat)
    requires History(plan, h) && i <= j < |h|
    ensures h[j].source == h[i].source
    ensures forall k | k in h[i].target :: k in h[j].target && h[j].target[k] == h[i].target[k]
    ensures h[j].table.Keys == h[i].table.Keys
    ensures forall loc | loc in h[i].table ::
              || h[j].table[loc] == h[i].table[loc]
              || (h[i].table[loc].backend == plan.from && h[j].table[loc] == h[i].table[loc].(backend := plan.to))
    decreases j - i
  {
    if i < j {
      HistoryOnlyRelabels(plan, h, i, j - 1);
      assert Step(plan, h[j - 1], h[j - 1 + 1]);
    }
  }

  /** Once a key has been moved, no row with that key carries the source's label again. */
  lemma MovedForGood(plan: Plan, h: seq<World>, i: nat, j: nat, key: string)
    requires History(plan, h) && i < j < |h| && MoveStep(plan, h[i], h[i + 1], key)
    ensures Locations(h[j].table, plan.from, key) == {}
  {
    HistoryOnlyRelabels(plan, h, i + 1, j);
    forall loc | loc in h[i].table
      ensures !Labelled(h[j].table[loc], plan.from, key)
    {
      assert loc in h[i + 1].table;
    }
  }

  /** Over all the runs together, an object key is relabelled at most once. */
  lemma RelabelledOnce(plan: Plan, h: seq<World>, i: nat, j: nat, key: string)
    requires History(plan, h) && i < j < |h| - 1 && MoveStep(plan, h[i], h[i + 1], key)
    ensures !MoveStep(plan, h[j], h[j + 1], key)
  {
    MovedForGood(plan, h, i, j, key);
  }

  /** The exact condition under which a row that was moved is backed afterwards: every non-empty
      object is, and an empty one exactly when the destination did not already hold something else
      under the empty object's key. */
  lemma MovedRowBackedIff(plan: Plan, h: seq<World>, i: nat, loc: string)
    requires History(plan, h) && i < |h| - 1 && NoCollisionWithEmpty(plan.hash)
    requires loc in h[i].table && loc in h[i + 1].table && h[i + 1].table[loc] != h[i].table[loc]
    ensures var row := h[i + 1].table[loc];
            Backed(plan.hash, h[|h| - 1].target, row) <==>
              (row.size != 0 || row.key !in h[0].target || h[0].target[row.key] == [])
  {
    var row := h[i + 1].table[loc];
    assert Step(plan, h[i], h[i + 1]);
    var key :| MoveStep(plan, h[i], h[i + 1], key);
    assert loc in Locations(h[i].table, plan.from, key);
    assert Verified(plan.hash, h[i].target, h[i].table[loc]);
    HistoryOnlyRelabels(plan, h, i, |h| - 1);
    if row.size == 0 {
      assert row.key == plan.hash.KeyOf([]);
      EmptyKeyOrigin(plan, h, i);
    }
  }

  lemma {:induction false} EmptyKeyOrigin(plan: Plan, h: seq<World>, i: nat)
    requires History(plan, h) && i < |h| && NoCollisionWithEmpty(plan.hash)
    requires plan.hash.KeyOf([]) in h[i].target
    ensures var k := plan.hash.KeyOf([]); h[i].target[k] == if k in h[0].target then h[0].target[k] else []
  {
    if i > 0 {
      HistoryOnlyRelabels(plan, h, 0, i - 1);
      assert Step(plan, h[i - 1], h[i - 1 + 1]);
      if plan.hash.KeyOf([]) in h[i - 1].target {
        EmptyKeyOrigin(plan, h, i - 1);
      }
    }
  }

  // ----- the page query

  datatype MigrationObject = MigrationObject(key: string, size: int, sha: Bytes, rows: int)

  datatype MigrationError = Inconsistent(key: string) | DatabaseError | CopyError(key: string) | Interrupted

  /** One object speaks for every location that shares its key on the backend. */
  predicate Describes(hash: Hashing, table: Table, backend: string, o: MigrationObject) {
    && o.rows == |Locations(table, backend, o.key)| > 0
    && (forall loc | loc in Locations(table, backend, o.key) :: table[loc] == Row(backend, o.key, o.size, o.sha))
    && |o.sha| == 32 && o.key == hash.hex(o.sha)
  }

  function KeysOn(table: Table, backend: string): set<string> {
    set loc | loc in table && table[loc].backend == backend :: table[loc].key
  }

  /** The keys beyond the cursor. */
  function Ahead(all: set<string>, after: string): set<string> {
    Keyset.Beyond(all, Some(after), Before)
  }

  /** The keys of one page. */
  function PageKeys(all: set<string>, after: string, batch: nat): seq<string> {
    BeforeIsStrictTotalOrder();
    Keyset.Select(all, Some(after), Before, batch)
  }

  /** The table once every source key that is not beyond `after` has been moved. */
  function MovedUpTo(table: Table, plan: Plan, after: string): Table {
    map loc | loc in table ::
      if table[loc].backend == plan.from && table[loc].key != "" && !Before(after, table[loc].key)
      then table[loc].(backend := plan.to) else table[loc]
  }

  /** The outcome of a complete run: no key but the empty one keeps the source's label. */
  function MovedAll(table: Table, plan: Plan): Table {
    map loc | loc in table ::
      if table[loc].backend == plan.from && table[loc].key != "" then table[loc].(backend := plan.to) else table[loc]
  }

  // ----- the program

  predicate SameAt(a: Objects, b: Objects, key: string) {
    if key in a then key in b && a[key] == b[key] else key !in b
  }

  /** The write of one object gets through, if no call fails: the source has it, and a remote destination holds
      nothing of another size under its key. */
  predicate Copyable(hash: Hashing, kind: BackendKind, source: Objects, target: Objects, o: MigrationObject) {
    && (if o.size == 0 then hash.sha([]) == o.sha
        else o.key in source && |source[o.key]| == o.size && hash.sha(source[o.key]) == o.sha)
    && (kind == S3 && o.key in target ==> |target[o.key]| == o.size)
  }

  /** One object can be moved, if no call fails: the source has it with the recorded size and digest, and so has
      the destination if it holds anything under its key.  An empty object is asked of neither. */
  predicate Movable(hash: Hashing, kind: BackendKind, source: Objects, target: Objects, o: MigrationObject) {
    if o.size == 0 then
      hash.sha([]) == o.sha && (kind == S3 && o.key in target ==> target[o.key] == [])
    else
      && o.key in source && |source[o.key]| == o.size && hash.sha(source[o.key]) == o.sha
      && (o.key in target ==> |target[o.key]| == o.size && hash.sha(target[o.key]) == o.sha)
  }

  /** Where a turn of the page loop leaves its cursor and count. */
  datatype Turn = Turn(finished: bool, after: string, count: nat)

  class Migration {
    const plan: Plan
    const source: BlobBackend
    const target: BlobBackend
    const calm: bool
    var table: Table
    ghost var history: seq<World>

    /** The source may answer range reads with anything; the read-back relies on the destination. */
    ghost predicate Valid()
      reads this, source, target
    {
      && source != target && target.honest && target.hash == plan.hash
      && History(plan, history)
      && history[|history| - 1] == World(table, source.objects, target.objects)
    }

    /** No call on the database or on a store fails, and nobody interrupts the run. */
    predicate Calm() {
      calm && source.honest && source.reliable && target.reliable
    }

    constructor (plan: Plan, source: BlobBackend, target: BlobBackend, calm: bool, table: Table)
      requires source != target && plan.from != plan.to && target.honest && target.hash == plan.hash
      ensures Valid() && this.plan == plan && this.source == source && this.target == target && this.calm == calm
      ensures history == [World(table, source.objects, target.objects)]
    {
      this.plan, this.source, this.target, this.calm, this.table := plan, source, target, calm, table;
      this.history := [World(table, source.objects, target.objects)];
    }

    /** One scanned group: a key whose locations disagree, or do not match the key, is refused. */
    method Describe(key: string) returns (r: Result<MigrationObject, MigrationError>)
      requires key in KeysOn(table, plan.from)
      ensures r.Ok? ==> r.value.key == key && Describes(plan.hash, table, plan.from, r.value)
      ensures r.Err? ==> r == Err(Inconsistent(key)) &&
                         forall o: MigrationObject | o.key == key :: !Describes(plan.hash, table, plan.from, o)
    {
      var locations := Locations(table, plan.from, key);
      assert exists loc :: loc in table && Labelled(table[loc], plan.from, key) && loc in locations;
      var some :| some in locations;
      var row := table[some];
      if exists loc | loc in locations :: table[loc].size != row.size || table[loc].sha != row.sha {
        return Err(Inconsistent(key));
      }
      if |row.sha| != 32 || key != plan.hash.hex(row.sha) {
        return Err(Inconsistent(key));
      }
      return Ok(MigrationObject(key, row.size, row.sha, |locations|));
    }

    /** SELECT ... GROUP BY object_key ... LIMIT, with the checks made on every scanned group. */
    method ListBlobMigrationObjects(after: string, batch: nat) returns (r: Result<seq<MigrationObject>, MigrationError>)
      requires batch > 0
      ensures r.Ok? ==> PageOf(table, plan, after, batch, r.value)
      ensures r.Err? && r.error.Inconsistent? ==>
                && r.error.key in KeysOn(table, plan.from) && Before(after, r.error.key)
                && forall o: MigrationObject | o.key == r.error.key :: !Describes(plan.hash, table, plan.from, o)
      ensures calm && r.Err? ==> r.error.Inconsistent?
    {
      var reachable: bool := *;
      if !(calm || reachable) {
        return Err(DatabaseError);
      }
      var keys := PageKeys(KeysOn(table, plan.from), after, batch);
      SelectFacts(KeysOn(table, plan.from), after, batch);
      r := ScanGroups(keys);
    }

    method ScanGroups(keys: seq<string>) returns (r: Result<seq<MigrationObject>, MigrationError>)
      requires forall k | k in keys :: k in KeysOn(table, plan.from)
      ensures r.Ok? ==>
                && |r.value| == |keys|
                && forall i | 0 <= i < |keys| ::
                     r.value[i].key == keys[i] && Describes(plan.hash, table, plan.from, r.value[i])
      ensures r.Err? ==>
                && r.error.Inconsistent? && r.error.key in keys
                && forall o: MigrationObject | o.key == r.error.key :: !Describes(plan.hash, table, plan.from, o)
    {
      var objects: seq<MigrationObject> := [];
      var i := 0;
      while i < |keys|
        invariant 0 <= i <= |keys| && |objects| == i
        invariant forall j | 0 <= j < i ::
                    objects[j].key == keys[j] && Describes(plan.hash, table, plan.from, objects[j])
      {
        var described := Describe(keys[i]);
        if described.Err? {
          return Err(described.error);
        }
        objects := objects + [described.value];
        i := i + 1;
      }
      return Ok(objects);
    }

    /** Copies one object, then reads it back from the destination.  An empty object gets through whatever a local
        destination holds under its key, unless a call on it fails. */
    method MigrateObject(o: MigrationObject, mishap: bool) returns (ok: bool)
      requires Valid() && o.key == plan.hash.hex(o.sha)
      modifies target`objects, `history
      ensures Valid() && old(history) <= history
      ensures ok ==> Verified(plan.hash, target.objects, Row(plan.from, o.key, o.size, o.sha))
      ensures mishap ==> !ok
      ensures && !mishap && target.kind == LocalFS
              && o.size == 0 && o.sha == plan.hash.sha([]) && o.key in old(target.objects)
              ==> ok
      ensures ok && target.kind == S3 ==> Backed(plan.hash, target.objects, Row(plan.from, o.key, o.size, o.sha))
      ensures ok ==> forall k | k != o.key :: SameAt(old(target.objects), target.objects, k)
      ensures Calm() && !mishap ==> (ok <==> Movable(plan.hash, target.kind, source.objects, old(target.objects), o))
    {
      ok := Copy(o, mishap);
      if !ok {
        return;
      }
      ok := ReadBack(o);
    }

    /** The first half: stream the object into the destination and check what it reports. */
    method Copy(o: MigrationObject, mishap: bool) returns (ok: bool)
      requires Valid()
      modifies target`objects, `history
      ensures Valid() && old(history) <= history
      ensures ok ==> o.key in target.objects
      ensures ok && target.kind == S3 ==> |target.objects[o.key]| == o.size
      ensures mishap ==> !ok
      ensures && !mishap && target.kind == LocalFS
              && o.size == 0 && o.sha == plan.hash.sha([]) && o.key == plan.hash.KeyOf([])
              ==> ok
      ensures ok ==> forall k | k != o.key :: SameAt(old(target.objects), target.objects, k)
      ensures o.key in old(target.objects) ==> SameAt(old(target.objects), target.objects, o.key)
      ensures Calm() && !mishap && o.key == plan.hash.hex(o.sha) ==>
                (ok <==> Copyable(plan.hash, target.kind, source.objects, old(target.objects), o))
      ensures source.honest && ok && o.size > 0 && o.key !in old(target.objects) ==>
                o.key in source.objects && target.objects[o.key] == source.objects[o.key]
    {
      var sourceReader := new RangeReader(source, o.key, o.size);
      var reply := target.PutReader(sourceReader, mishap);
      history := history + [World(table, source.objects, target.objects)];
      if reply.PutFailed? {
        return false;
      }
      var same := EqualBytes(reply.digest, o.sha);
      return reply.key == o.key && reply.size == o.size && same;
    }

    /** The second half: what the destination returns has to have the recorded size and digest. */
    method ReadBack(o: MigrationObject) returns (ok: bool)
      requires target.honest
      ensures ok && o.size != 0 ==> Backed(plan.hash, target.objects, Row(plan.from, o.key, o.size, o.sha))
      ensures ok && o.size == 0 ==> plan.hash.sha([]) == o.sha
      ensures o.size == 0 && plan.hash.sha([]) == o.sha ==> ok
      ensures target.reliable && Backed(plan.hash, target.objects, Row(plan.from, o.key, o.size, o.sha)) ==> ok
    {
      var verifyReader := new RangeReader(target, o.key, o.size);
      var read, content := verifyReader.ReadAll(32768);
      if !read {
        return false;
      }
      var same := EqualBytes(plan.hash.sha(content), o.sha);
      return |content| == o.size && same;
    }

    /** Relabels every location of an object.  The update is committed before its row count is compared. */
    method MoveFileBlobBackendForObject(key: string, expectedRows: int) returns (ok: bool)
      requires Valid()
      requires forall loc | loc in Locations(table, plan.from, key) :: Verified(plan.hash, target.objects, table[loc])
      modifies `table, `history
      ensures Valid() && old(history) <= history
      ensures ok ==> expectedRows == |old(Locations(table, plan.from, key))|
      ensures table == old(table) || table == Relabel(old(table), plan, key)
      ensures ok ==> table == Relabel(old(table), plan, key)
      ensures calm && expectedRows == |old(Locations(table, plan.from, key))| > 0 ==> ok
    {
      if expectedRows <= 0 {
        return false;
      }
      var reachable: bool := *;
      if !(calm || reachable) {
        return false;
      }
      var affected := |Locations(table, plan.from, key)|;
      ghost var before := World(table, source.objects, target.objects);
      table := Relabel(table, plan, key);
      ghost var now := World(table, source.objects, target.objects);
      if affected == 0 {
        assert now.table == before.table;
      } else {
        assert MoveStep(plan, before, now, key);
      }
      history := history + [now];
      return affected == expectedRows;
    }

    /** The page loop.  A dry run lists but neither copies nor relabels. */
    method Run(dryRun: bool, batch: nat) returns (r: Result<nat, MigrationError>)
      requires Valid() && 1 <= batch <= 10000
      modifies this`table, this`history, target`objects
      ensures Valid() && old(history) <= history
      ensures dryRun ==> table == old(table) && history == old(history) && target.objects == old(target.objects)
      ensures r.Ok? && !dryRun ==> table == MovedAll(old(table), plan)
      ensures r.Ok? ==> r.value == |KeysOn(old(table), plan.from) - {""}|
      ensures Calm() ==>
                (r.Ok? <==> AllGood(old(table), plan, target.kind, source.objects, old(target.objects), dryRun))
    {
      ghost var start, held := table, target.objects;
      var after := "";
      var count: nat := 0;
      var finished := false;
      RunStarts(start, plan, dryRun);
      GoodStarts(start, plan, target.kind, source.objects, held, dryRun);
      while !finished
        invariant Valid() && old(history) <= history
        invariant dryRun ==> history == old(history) && target.objects == old(target.objects)
        invariant RunAt(start, plan, dryRun, after, table, count)
        invariant Calm() ==> GoodUpTo(start, plan, target.kind, source.objects, held, target.objects, dryRun, after)
        invariant finished ==> Ahead(KeysOn(start, plan.from), after) == {}
        decreases !finished, |Ahead(KeysOn(start, plan.from), after)|
      {
        var turn := NextPage(dryRun, batch, start, held, after, count);
        if turn.Err? {
          return Err(turn.error);
        }
        finished, after, count := turn.value.finished, turn.value.after, turn.value.count;
      }
      Finished(start, plan, after);
      if Calm() {
        GoodToTheEnd(start, plan, target.kind, source.objects, held, target.objects, dryRun, after);
      }
      return Ok(count);
    }

    /** One turn of the page loop: list, stop if nothing is listed, migrate what is. */
    method NextPage(dryRun: bool, batch: nat, ghost start: Table, ghost held: Objects, after: string, count: nat)
      returns (r: Result<Turn, MigrationError>)
      requires Valid() && batch > 0 && RunAt(start, plan, dryRun, after, table, count)
      requires Calm() ==> GoodUpTo(start, plan, target.kind, source.objects, held, target.objects, dryRun, after)
      modifies this`table, this`history, target`objects
      ensures Valid() && old(history) <= history
      ensures dryRun ==> table == old(table) && history == old(history) && target.objects == old(target.objects)
      ensures r.Ok? ==>
                var all := KeysOn(start, plan.from);
                && RunAt(start, plan, dryRun, r.value.after, table, r.value.count)
                && if r.value.finished then Ahead(all, r.value.after) == {}
                   else |Ahead(all, r.value.after)| < |Ahead(all, after)|
      ensures Calm() ==>
                if r.Ok? then
                  GoodUpTo(start, plan, target.kind, source.objects, held, target.objects, dryRun, r.value.after)
                else !AllGood(start, plan, target.kind, source.objects, held, dryRun)
    {
      var listed := ListNext(dryRun, batch, start, held, after);
      if listed.Err? {
        return Err(listed.error);
      }
      if listed.value == [] {
        return Ok(Turn(true, after, count));
      }
      var done := MigratePage(dryRun, listed.value, start, held, after);
      if done.Err? {
        return Err(done.error);
      }
      PageAdvances(KeysOn(start, plan.from), after, done.value);
      return Ok(Turn(false, done.value, count + |listed.value|));
    }

    /** The query of one turn, seen as a page of the table that the run started on. */
    method ListNext(dryRun: bool, batch: nat, ghost start: Table, ghost held: Objects, after: string)
      returns (r: Result<seq<MigrationObject>, MigrationError>)
      requires plan.from != plan.to && batch > 0 && table == if dryRun then start else MovedUpTo(start, plan, after)
      ensures r.Ok? ==>
                && InTurn(start, plan, after, r.value)
                && (r.value == [] ==> Ahead(KeysOn(start, plan.from), after) == {})
                && (r.value != [] ==> Before(after, r.value[|r.value| - 1].key)
                                      && r.value[|r.value| - 1].key in KeysOn(start, plan.from))
      ensures calm && r.Err? ==> !AllGood(start, plan, target.kind, source.objects, held, dryRun)
    {
      r := ListBlobMigrationObjects(after, batch);
      if r.Ok? {
        ListedPage(start, plan, after, table, batch, r.value);
      } else if r.error.Inconsistent? {
        StillInconsistent(start, plan, after, table, r.error.key);
      }
    }

    /** One page; the result is the cursor for the next. */
    method MigratePage(dryRun: bool, page: seq<MigrationObject>, ghost start: Table, ghost held: Objects,
                       before: string)
      returns (r: Result<string, MigrationError>)
      requires Valid() && page != []
      requires Calm() ==> GoodUpTo(start, plan, target.kind, source.objects, held, target.objects, dryRun, before)
      requires table == if dryRun then start else MovedUpTo(start, plan, before)
      requires InTurn(start, plan, before, page)
      modifies this`table, this`history, target`objects
      ensures Valid() && old(history) <= history
      ensures dryRun ==> table == old(table) && history == old(history) && target.objects == old(target.objects)
      ensures r.Ok? ==>
                var all := KeysOn(start, plan.from);
                && r.value == page[|page| - 1].key
                && table == (if dryRun then start else MovedUpTo(start, plan, r.value))
                && |Passed(all, r.value)| == |Passed(all, before)| + |page|
      ensures Calm() ==>
                if r.Ok? then
                  GoodUpTo(start, plan, target.kind, source.objects, held, target.objects, dryRun, r.value)
                else !AllGood(start, plan, target.kind, source.objects, held, dryRun)
    {
      var after := before;
      var i := 0;
      PageStarts(start, plan, dryRun, before, table);
      while i < |page|
        invariant 0 <= i <= |page| && after == CursorAt(before, page, i)
        invariant Valid() && old(history) <= history
        invariant dryRun ==> history == old(history) && target.objects == old(target.objects)
        invariant PageAt(start, plan, dryRun, before, after, table, i)
        invariant Calm() ==> GoodUpTo(start, plan, target.kind, source.objects, held, target.objects, dryRun, after)
      {
        var interrupted: bool := *;
        if interrupted && !calm {
          return Err(Interrupted);
        }
        var done := MigrateNext(dryRun, page[i], start, held, before, after, i);
        if done.Err? {
          return Err(done.error);
        }
        after := page[i].key;
        i := i + 1;
      }
      return Ok(after);
    }

    method MigrateNext(dryRun: bool, o: MigrationObject, ghost start: Table, ghost held: Objects, ghost before: string,
                       ghost after: string, ghost i: nat)
      returns (r: Result<(), MigrationError>)
      requires Valid() && PageAt(start, plan, dryRun, before, after, table, i)
      requires IsNext(KeysOn(start, plan.from), after, o.key) && Describes(plan.hash, start, plan.from, o)
      requires Calm() ==> GoodUpTo(start, plan, target.kind, source.objects, held, target.objects, dryRun, after)
      modifies this`table, this`history, target`objects
      ensures Valid() && old(history) <= history
      ensures dryRun ==> table == old(table) && history == old(history) && target.objects == old(target.objects)
      ensures r.Ok? ==> PageAt(start, plan, dryRun, before, o.key, table, i + 1)
      ensures Calm() ==>
                if r.Ok? then
                  GoodUpTo(start, plan, target.kind, source.objects, held, target.objects, dryRun, o.key)
                else !AllGood(start, plan, target.kind, source.objects, held, dryRun)
    {
      ghost var had := target.objects;
      PassOne(KeysOn(start, plan.from), after, o.key);
      if dryRun {
        if Calm() {
          GoodNext(start, plan, target.kind, source.objects, held, had, had, dryRun, after, o);
        }
        return Ok(());
      }
      r := MoveOne(o, start, after);
      if Calm() {
        if r.Ok? {
          GoodNext(start, plan, target.kind, source.objects, held, had, target.objects, dryRun, after, o);
        } else {
          NotGood(start, plan, target.kind, source.objects, held, had, after, o);
        }
      }
    }

    /** One object of the page, outside a dry run: copy, then relabel. */
    method MoveOne(o: MigrationObject, ghost start: Table, ghost after: string) returns (r: Result<(), MigrationError>)
      requires Valid() && table == MovedUpTo(start, plan, after)
      requires IsNext(KeysOn(start, plan.from), after, o.key) && Describes(plan.hash, start, plan.from, o)
      modifies this`table, this`history, target`objects
      ensures Valid() && old(history) <= history
      ensures r.Ok? ==> table == MovedUpTo(start, plan, o.key)
      ensures r.Ok? ==> forall k | k != o.key :: SameAt(old(target.objects), target.objects, k)
      ensures Calm() ==> (r.Ok? <==> Movable(plan.hash, target.kind, source.objects, old(target.objects), o))
    {
      AheadLocations(start, plan, after, o.key);
      var mishap: bool := *;
      var copied := MigrateObject(o, mishap && !calm);
      if !copied {
        return Err(CopyError(o.key));
      }
      var moved := MoveFileBlobBackendForObject(o.key, o.rows);
      if !moved {
        return Err(DatabaseError);
      }
      RelabelNext(start, plan, after, o.key);
      return Ok(());
    }
  }

  /** `page` is what the page query returns when the cursor stands at `before`. */
  ghost predicate PageOf(start: Table, plan: Plan, before: string, batch: nat,
                         page: seq<MigrationObject>)
  {
    var keys := PageKeys(KeysOn(start, plan.from), before, batch);
    && |page| == |keys|
    && forall i | 0 <= i < |page| :: page[i].key == keys[i] && Describes(plan.hash, start, plan.from, page[i])
  }

  /** Where a run stands: everything up to the cursor has been counted and, unless it is a dry run, moved. */
  ghost predicate RunAt(start: Table, plan: Plan, dryRun: bool, after: string, table: Table, count: nat) {
    && table == (if dryRun then start else MovedUpTo(start, plan, after))
    && count == |Passed(KeysOn(start, plan.from), after)|
  }

  // ----- when a run succeeds

  /** The locations of a source key agree and match it, and outside a dry run its object can be moved. */
  ghost predicate GoodKey(start: Table, plan: Plan, kind: BackendKind, source: Objects, held: Objects, dryRun: bool,
                          key: string)
  {
    exists o: MigrationObject :: && o.key == key && Describes(plan.hash, start, plan.from, o)
                && (dryRun || Movable(plan.hash, kind, source, held, o))
  }

  ghost predicate AllGood(start: Table, plan: Plan, kind: BackendKind, source: Objects, held: Objects, dryRun: bool) {
    forall key | key in KeysOn(start, plan.from) && key != "" :: GoodKey(start, plan, kind, source, held, dryRun, key)
  }

  /** Every key up to the cursor was good, and beyond it the destination is as the run found it. */
  ghost predicate GoodUpTo(start: Table, plan: Plan, kind: BackendKind, source: Objects, held: Objects, now: Objects,
                           dryRun: bool, after: string)
  {
    && (forall k | Before(after, k) :: SameAt(held, now, k))
    && (forall key | key in Passed(KeysOn(start, plan.from), after) ::
          GoodKey(start, plan, kind, source, held, dryRun, key))
  }

  lemma GoodStarts(start: Table, plan: Plan, kind: BackendKind, source: Objects, held: Objects, dryRun: bool)
    ensures GoodUpTo(start, plan, kind, source, held, held, dryRun, "")
  {
    BeforeIsStrictTotalOrder();
    assert Passed(KeysOn(start, plan.from), "") == {};
  }

  lemma GoodNext(start: Table, plan: Plan, kind: BackendKind, source: Objects, held: Objects, had: Objects,
                 now: Objects, dryRun: bool, after: string, o: MigrationObject)
    requires GoodUpTo(start, plan, kind, source, held, had, dryRun, after)
    requires IsNext(KeysOn(start, plan.from), after, o.key) && Describes(plan.hash, start, plan.from, o)
    requires forall k | k != o.key :: SameAt(had, now, k)
    requires dryRun || Movable(plan.hash, kind, source, had, o)
    ensures GoodUpTo(start, plan, kind, source, held, now, dryRun, o.key)
  {
    BeforeIsStrictTotalOrder();
    var all := KeysOn(start, plan.from);
    assert Passed(all, o.key) == Passed(all, after) + {o.key};
    assert SameAt(held, had, o.key);
    assert GoodKey(start, plan, kind, source, held, dryRun, o.key);
    forall k | Before(o.key, k)
      ensures SameAt(held, now, k)
    {
      assert SameAt(had, now, k) && SameAt(held, had, k);
    }
  }

  lemma NotGood(start: Table, plan: Plan, kind: BackendKind, source: Objects, held: Objects, had: Objects,
                after: string, o: MigrationObject)
    requires forall k | Before(after, k) :: SameAt(held, had, k)
    requires IsNext(KeysOn(start, plan.from), after, o.key) && Describes(plan.hash, start, plan.from, o)
    requires !Movable(plan.hash, kind, source, had, o)
    ensures !AllGood(start, plan, kind, source, held, false)
  {
    assert SameAt(held, had, o.key);
    if o': MigrationObject :| o'.key == o.key && Describes(plan.hash, start, plan.from, o') {
      var loc :| loc in Locations(start, plan.from, o.key);
      assert start[loc] == Row(plan.from, o.key, o.size, o.sha);
    }
    assert !GoodKey(start, plan, kind, source, held, false, o.key);
  }

  /** A group that is inconsistent when its page is listed was so at the start. */
  lemma StillInconsistent(start: Table, plan: Plan, after: string, current: Table, key: string)
    requires plan.from != plan.to && (current == start || current == MovedUpTo(start, plan, after))
    requires key in KeysOn(current, plan.from) && Before(after, key)
    requires forall o: MigrationObject | o.key == key :: !Describes(plan.hash, current, plan.from, o)
    ensures forall kind, source, held, dryRun :: !AllGood(start, plan, kind, source, held, dryRun)
  {
    BeforeIsStrictTotalOrder();
    AheadUnchanged(start, plan, after, current);
    AheadLocations(start, plan, after, key);
    assert key in Ahead(KeysOn(start, plan.from), after) && key != "";
    forall kind, source, held, dryRun
      ensures !AllGood(start, plan, kind, source, held, dryRun)
    {
      assert !GoodKey(start, plan, kind, source, held, dryRun, key);
    }
  }

  lemma GoodToTheEnd(start: Table, plan: Plan, kind: BackendKind, source: Objects, held: Objects, now: Objects,
                     dryRun: bool, after: string)
    requires GoodUpTo(start, plan, kind, source, held, now, dryRun, after)
    requires Passed(KeysOn(start, plan.from), after) == KeysOn(start, plan.from) - {""}
    ensures AllGood(start, plan, kind, source, held, dryRun)
  {
  }

  lemma SelectFacts(all: set<string>, after: string, batch: nat)
    requires batch > 0
    ensures var keys := PageKeys(all, after, batch);
            && (forall k | k in keys :: k in all && Before(after, k))
            && (keys == [] ==> Ahead(all, after) == {})
  {
    BeforeIsStrictTotalOrder();
    Keyset.SelectSome(all, Before, after, batch);
  }

  lemma RunStarts(start: Table, plan: Plan, dryRun: bool)
    ensures RunAt(start, plan, dryRun, "", start, 0)
  {
    BeforeIsStrictTotalOrder();
    assert MovedUpTo(start, plan, "") == start;
    assert Passed(KeysOn(start, plan.from), "") == {};
  }

  /** The source keys a run has been through when its cursor stands at `after`. */
  function Passed(all: set<string>, after: string): set<string> {
    set k | k in all && k != "" && !Before(after, k)
  }

  lemma AheadLocations(start: Table, plan: Plan, after: string, key: string)
    requires plan.from != plan.to && Before(after, key)
    ensures Locations(MovedUpTo(start, plan, after), plan.from, key) == Locations(start, plan.from, key)
    ensures forall loc | loc in Locations(start, plan.from, key) :: MovedUpTo(start, plan, after)[loc] == start[loc]
  {
  }

  /** What the next page query sees does not depend on what has been moved already. */
  lemma AheadUnchanged(start: Table, plan: Plan, after: string, current: Table)
    requires plan.from != plan.to && (current == start || current == MovedUpTo(start, plan, after))
    ensures Ahead(KeysOn(current, plan.from), after) == Ahead(KeysOn(start, plan.from), after)
    ensures forall o: MigrationObject | Before(after, o.key) && Describes(plan.hash, current, plan.from, o) ::
              Describes(plan.hash, start, plan.from, o)
  {
    forall k | k in Ahead(KeysOn(start, plan.from), after)
      ensures k in KeysOn(current, plan.from)
    {
      var loc :| loc in start && start[loc].backend == plan.from && start[loc].key == k;
      assert current[loc] == start[loc];
    }
    forall o: MigrationObject | Before(after, o.key) && Describes(plan.hash, current, plan.from, o)
      ensures Describes(plan.hash, start, plan.from, o)
    {
      AheadLocations(start, plan, after, o.key);
    }
  }

  /** So a page listed in the course of a run is a page of the table that the run started on. */
  lemma ListedPage(start: Table, plan: Plan, after: string, current: Table, batch: nat, page: seq<MigrationObject>)
    requires plan.from != plan.to && (current == start || current == MovedUpTo(start, plan, after))
    requires batch > 0 && PageOf(current, plan, after, batch, page)
    ensures InTurn(start, plan, after, page)
    ensures page == [] ==> Ahead(KeysOn(start, plan.from), after) == {}
    ensures page != [] ==> Before(after, page[|page| - 1].key) && page[|page| - 1].key in KeysOn(start, plan.from)
  {
    AheadUnchanged(start, plan, after, current);
    SelectFacts(KeysOn(start, plan.from), after, batch);
    var keys := PageKeys(KeysOn(start, plan.from), after, batch);
    assert PageKeys(KeysOn(current, plan.from), after, batch) == keys;
    assert forall i | 0 <= i < |page| :: keys[i] in keys && page[i].key == keys[i];
    ListedInTurn(start, plan, after, batch, page);
  }

  /** Among the source keys, `key` is the first one beyond the cursor. */
  predicate IsNext(all: set<string>, after: string, key: string) {
    && key in all && Before(after, key) && key != ""
    && forall k | k in all && Before(after, k) :: k == key || Before(key, k)
  }

  /** Between one key of a page and the next there is no other source key. */
  lemma NextKey(all: set<string>, before: string, batch: nat, i: nat)
    requires i < |PageKeys(all, before, batch)|
    ensures var keys := PageKeys(all, before, batch);
            IsNext(all, if i == 0 then before else keys[i - 1], keys[i])
  {
    BeforeIsStrictTotalOrder();
    Keyset.SelectNext(all, Before, before, batch, i);
  }

  /** The cursor before the i-th object of a page that was listed at `before`. */
  function CursorAt(before: string, page: seq<MigrationObject>, i: nat): string
    requires i <= |page|
  {
    if i == 0 then before else page[i - 1].key
  }

  /** Each object of the page is the next one when its turn comes. */
  ghost predicate InTurn(start: Table, plan: Plan, before: string, page: seq<MigrationObject>) {
    forall i {:trigger CursorAt(before, page, i)} | 0 <= i < |page| ::
      IsNext(KeysOn(start, plan.from), CursorAt(before, page, i), page[i].key) &&
      Describes(plan.hash, start, plan.from, page[i])
  }

  lemma ListedInTurn(start: Table, plan: Plan, before: string, batch: nat, page: seq<MigrationObject>)
    requires PageOf(start, plan, before, batch, page)
    ensures InTurn(start, plan, before, page)
  {
    forall i | 0 <= i < |page|
      ensures IsNext(KeysOn(start, plan.from), CursorAt(before, page, i), page[i].key)
    {
      NextKey(KeysOn(start, plan.from), before, batch, i);
    }
  }

  lemma PassOne(all: set<string>, after: string, key: string)
    requires IsNext(all, after, key)
    ensures |Passed(all, key)| == |Passed(all, after)| + 1
  {
    BeforeIsStrictTotalOrder();
    assert Passed(all, key) == Passed(all, after) + {key};
  }

  /** Where a run stands after i objects of the page that was listed at `before`. */
  ghost predicate PageAt(start: Table, plan: Plan, dryRun: bool, before: string, after: string, table: Table, i: nat) {
    && table == (if dryRun then start else MovedUpTo(start, plan, after))
    && |Passed(KeysOn(start, plan.from), after)| == |Passed(KeysOn(start, plan.from), before)| + i
  }

  lemma PageStarts(start: Table, plan: Plan, dryRun: bool, before: string, table: Table)
    requires table == if dryRun then start else MovedUpTo(start, plan, before)
    ensures PageAt(start, plan, dryRun, before, before, table, 0)
  {
  }

  lemma RelabelNext(start: Table, plan: Plan, after: string, key: string)
    requires plan.from != plan.to && IsNext(KeysOn(start, plan.from), after, key)
    ensures MovedUpTo(start, plan, key) == Relabel(MovedUpTo(start, plan, after), plan, key)
  {
    BeforeIsStrictTotalOrder();
    forall loc | loc in start && start[loc].backend == plan.from
      ensures start[loc].key in KeysOn(start, plan.from)
    {
    }
  }

  lemma PageAdvances(all: set<string>, before: string, after: string)
    requires Before(before, after) && after in all
    ensures |Ahead(all, after)| < |Ahead(all, before)|
  {
    BeforeIsStrictTotalOrder();
    var now, then' := Ahead(all, after), Ahead(all, before);
    assert after in then' && now <= then' - {after};
    CardinalityMonotone(now, then' - {after});
  }

  lemma Finished(start: Table, plan: Plan, after: string)
    requires Ahead(KeysOn(start, plan.from), after) == {}
    ensures MovedUpTo(start, plan, after) == MovedAll(start, plan)
    ensures Passed(KeysOn(start, plan.from), after) == KeysOn(start, plan.from) - {""}
  {
    forall loc | loc in start && start[loc].backend == plan.from
      ensures !Before(after, start[loc].key)
    {
      assert start[loc].key in KeysOn(start, plan.from);
      assert start[loc].key !in Ahead(KeysOn(start, plan.from), after);
    }
  }
}
