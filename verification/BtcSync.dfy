/** The Bitcoin sync of eth/worker_service.go: RunSync scans the blocks behind a stored
    cursor, saves them and moves the cursor. Every RPC and SQL call may fail. */
module BtcSync {
  import opened BtcSortCache
  import opened Integers
  import opened Options
  import opened Seqs

  type Hash = nat

  /** A block as the node reports it, reduced to what the cursor logic uses. */
  datatype Block = Block(height: int, hash: Hash)

  /** How a batch insert ends: on an error some of the first rows may have been kept. */
  datatype Insert = Inserted | InsertFails(kept: nat)

  /** The answers of the node and the database during one RunSync. */
  datatype Env = Env(
    blockCount: Option<Int64>,
    presentOk: bool,
    blockHash: int -> Option<Hash>,
    blockVerbose: Hash -> Option<Block>,
    headerOk: Hash -> bool,
    insertBlocks: Insert,
    saveTransactionsOk: bool,
    saveFilesOk: bool,
    chainReadOk: bool,
    chainSaveOk: bool)

  /** The database: the cursor row of t_base_chain, if there is one, and t_base_block. */
  datatype Db = Db(row: Option<Uint64>, table: set<Block>)

  datatype Stage = CurrentHeight | PresentHeight | FetchBlocks | SaveBlocks | SaveTransactions | SaveFiles | UpdateChain

  /** What a call returns: an error, nothing to do, or what GenerateBrief made of the blocks at
      `heights`. */
  datatype Outcome = Failed(stage: Stage) | UpToDate | Synced(heights: seq<int>)

  // ---------- Specification of one call ----------

  function Range(from: int, to: int): (q: seq<int>)
    ensures |q| == if to < from then 0 else to - from + 1
    ensures forall i :: 0 <= i < |q| ==> q[i] == from + i
  {
    seq(if to < from then 0 else to - from + 1, i => from + i)
  }

  /** All three node calls for the block at height i succeed. */
  predicate Fetched(env: Env, i: int) {
    && env.blockHash(i).Some?
    && env.blockVerbose(env.blockHash(i).value).Some?
    && env.headerOk(env.blockHash(i).value)
  }

  function BlockAt(env: Env, i: int): Block
    requires Fetched(env, i)
  {
    env.blockVerbose(env.blockHash(i).value).value
  }

  predicate AllFetched(env: Env, from: int, to: int) {
    forall i :: from <= i <= to ==> Fetched(env, i)
  }

  function Blocks(env: Env, from: int, to: int): (q: seq<Block>)
    requires AllFetched(env, from, to)
    ensures |q| == |Range(from, to)|
    ensures forall i :: 0 <= i < |q| ==> q[i] == BlockAt(env, from + i)
  {
    seq(|Range(from, to)|, i requires 0 <= i < |Range(from, to)| => BlockAt(env, from + i))
  }

  /** INSERT OR IGNORE of one row: heights and hashes are unique. */
  function InsertRow(table: set<Block>, b: Block): set<Block> {
    if exists r :: r in table && (r.height == b.height || r.hash == b.hash) then table else table + {b}
  }

  function InsertRows(table: set<Block>, rows: seq<Block>): set<Block> {
    if rows == [] then table else InsertRow(InsertRows(table, rows[..|rows| - 1]), rows[|rows| - 1])
  }

  function InsertBatch(table: set<Block>, rows: seq<Block>, how: Insert): set<Block> {
    match how
    case Inserted => InsertRows(table, rows)
    case InsertFails(kept) => InsertRows(table, rows[..if kept < |rows| then kept else |rows|])
  }

  /** The stored cursor; a missing row will be created with the start number. */
  function Cursor(db: Db, startNum: Uint64): Int64 {
    ToInt64(if db.row.Some? then db.row.value else startNum)
  }

  /** The stages from GetBlocks on, for the heights from..last. */
  function SyncRangeSpec(db: Db, env: Env, from: Int64, last: Int64): (Db, Outcome) {
    if !AllFetched(env, from, last) then (db, Failed(FetchBlocks))
    else
      var db' := db.(table := InsertBatch(db.table, Blocks(env, from, last), env.insertBlocks));
      if env.insertBlocks.InsertFails? then (db', Failed(SaveBlocks))
      else if !env.saveTransactionsOk then (db', Failed(SaveTransactions))
      else if !env.saveFilesOk then (db', Failed(SaveFiles))
      else if !env.chainReadOk || !env.chainSaveOk then (db', Failed(UpdateChain))
      else (db'.(row := Some(ToUint64(last))), Synced(Range(from, last)))
  }

  function RunSyncSpec(db: Db, startNum: Uint64, env: Env): (Db, Outcome) {
    if env.blockCount.None? then (db, Failed(CurrentHeight))
    else if !env.presentOk then (db, Failed(PresentHeight))
    else
      var present := Cursor(db, startNum);
      var db' := db.(row := Some(if db.row.Some? then db.row.value else startNum));
      if present >= env.blockCount.value then (db', UpToDate)
      else SyncRangeSpec(db', env, present + 1, env.blockCount.value)
  }

  // ---------- Runs ----------

  /** The database after some calls, and the heights that they walked for briefs. */
  datatype Progress = Progress(db: Db, delivered: seq<int>)

  function Call(startNum: Uint64, p: Progress, env: Env): Progress {
    var (db, out) := RunSyncSpec(p.db, startNum, env);
    Progress(db, p.delivered + if out.Synced? then out.heights else [])
  }

  function Calls(startNum: Uint64, db: Db, envs: seq<Env>): Progress {
    Fold((p, env) => Call(startNum, p, env), Progress(db, []), envs)
  }

  /** One call: the cursor moves only over the heights it returns, and only forward. */
  lemma CallMovesCursor(db: Db, startNum: Uint64, env: Env)
    ensures var (db', out) := RunSyncSpec(db, startNum, env);
      && Cursor(db, startNum) <= Cursor(db', startNum)
      && (if out.Synced? then out.heights else []) == Range(Cursor(db, startNum) + 1, Cursor(db', startNum))
  {
  }

  /** A call that has a range to fetch: the height is known, the cursor is, and lies below. */
  predicate Due(db: Db, startNum: Uint64, env: Env) {
    env.blockCount.Some? && env.presentOk && Cursor(db, startNum) < env.blockCount.value
  }

  /** And the node answers for every height up to its own. */
  ghost predicate DueAndFetched(db: Db, startNum: Uint64, env: Env) {
    Due(db, startNum, env) && forall i :: Cursor(db, startNum) < i <= env.blockCount.value ==> Fetched(env, i)
  }

  /** And the rows go into the three tables. */
  ghost predicate DueAndSaved(db: Db, startNum: Uint64, env: Env) {
    DueAndFetched(db, startNum, env) && env.insertBlocks.Inserted? && env.saveTransactionsOk && env.saveFilesOk
  }

  /** How a call ends depends on the first answer that is bad. */
  lemma OutcomeExactly(db: Db, startNum: Uint64, env: Env, out: Outcome)
    requires out == RunSyncSpec(db, startNum, env).1
    ensures out == Failed(CurrentHeight) <==> env.blockCount.None?
    ensures out == Failed(PresentHeight) <==> env.blockCount.Some? && !env.presentOk
    ensures out == UpToDate <==> env.blockCount.Some? && env.presentOk && !Due(db, startNum, env)
    ensures out == Failed(FetchBlocks) <==> Due(db, startNum, env) && !DueAndFetched(db, startNum, env)
    ensures out == Failed(SaveBlocks) <==> DueAndFetched(db, startNum, env) && env.insertBlocks.InsertFails?
    ensures out == Failed(SaveTransactions) <==>
      DueAndFetched(db, startNum, env) && env.insertBlocks.Inserted? && !env.saveTransactionsOk
    ensures out == Failed(SaveFiles) <==>
      DueAndFetched(db, startNum, env) && env.insertBlocks.Inserted? && env.saveTransactionsOk && !env.saveFilesOk
    ensures out == Failed(UpdateChain) <==> DueAndSaved(db, startNum, env) && !(env.chainReadOk && env.chainSaveOk)
    ensures out.Synced? <==> DueAndSaved(db, startNum, env) && env.chainReadOk && env.chainSaveOk
  {
    if Due(db, startNum, env) {
      var from, last := Cursor(db, startNum) + 1, env.blockCount.value;
      assert AllFetched(env, from, last) <==> forall i :: from - 1 < i <= last ==> Fetched(env, i);
    }
  }

  /** A call whose answers are all good leaves the cursor at the node's height, unless it was
      there or beyond already, and returns the heights in between. */
  lemma GoodCallCatchesUp(db: Db, startNum: Uint64, env: Env)
    requires env.blockCount.Some? && env.presentOk && env.insertBlocks.Inserted?
    requires forall i :: Cursor(db, startNum) < i <= env.blockCount.value ==> Fetched(env, i)
    requires env.saveTransactionsOk && env.saveFilesOk && env.chainReadOk && env.chainSaveOk
    ensures var (db', out) := RunSyncSpec(db, startNum, env); var height := env.blockCount.value;
      if Cursor(db, startNum) >= height then out == UpToDate && Cursor(db', startNum) == Cursor(db, startNum)
      else out == Synced(Range(Cursor(db, startNum) + 1, height)) && Cursor(db', startNum) == height
  {
    OutcomeExactly(db, startNum, env, RunSyncSpec(db, startNum, env).1);
  }

  lemma RangeConcat(a: int, b: int, c: int)
    requires a <= b <= c
    ensures Range(a + 1, b) + Range(b + 1, c) == Range(a + 1, c)
  {
  }

  /** The heights from just above the cursor `from` up to the present one. */
  ghost predicate Covers(startNum: Uint64, from: int, p: Progress) {
    from <= Cursor(p.db, startNum) && p.delivered == Range(from + 1, Cursor(p.db, startNum))
  }

  lemma CallCovers(startNum: Uint64, from: int, p: Progress, env: Env)
    requires Covers(startNum, from, p)
    ensures Covers(startNum, from, Call(startNum, p, env))
  {
    CallMovesCursor(p.db, startNum, env);
    RangeConcat(from, Cursor(p.db, startNum), Cursor(RunSyncSpec(p.db, startNum, env).0, startNum));
  }

  /** Over any calls, failing anywhere, with the chain height rising or falling: the heights
      returned are exactly those from just above the first cursor up to the last, each once
      and in order. */
  lemma DeliveredIsRange(startNum: Uint64, db: Db, envs: seq<Env>)
    ensures var p := Calls(startNum, db, envs); var from := Cursor(db, startNum);
      from <= Cursor(p.db, startNum) && p.delivered == Range(from + 1, Cursor(p.db, startNum))
  {
    var from := Cursor(db, startNum);
    var step := (p, env) => Call(startNum, p, env);
    var P := (p, done) => Covers(startNum, from, p);
    forall p, done: seq<Env>, env | P(p, done) ensures P(step(p, env), done + [env]) {
      CallCovers(startNum, from, p, env);
    }
    FoldKeeps(step, Progress(db, []), envs, P);
  }

  // ---------- What is saved ----------

  /** The node answers with the block that was asked for. `heightOf` is the height a hash
      stands for. */
  ghost predicate Honest(env: Env, heightOf: Hash -> int) {
    && (forall i :: env.blockHash(i).Some? ==> heightOf(env.blockHash(i).value) == i)
    && (forall h :: env.blockVerbose(h).Some? ==>
          env.blockVerbose(h).value.hash == h && env.blockVerbose(h).value.height == heightOf(h))
  }

  ghost predicate RowsOk(table: set<Block>, heightOf: Hash -> int) {
    forall r :: r in table ==> r.height == heightOf(r.hash)
  }

  ghost predicate HasHeight(table: set<Block>, h: int) {
    exists r :: r in table && r.height == h
  }

  lemma InsertRowSaves(table: set<Block>, b: Block, heightOf: Hash -> int)
    requires RowsOk(table, heightOf) && b.height == heightOf(b.hash)
    ensures table <= InsertRow(table, b) && RowsOk(InsertRow(table, b), heightOf)
    ensures HasHeight(InsertRow(table, b), b.height)
  {
    if exists r :: r in table && (r.height == b.height || r.hash == b.hash) {
      var r :| r in table && (r.height == b.height || r.hash == b.hash);
      assert r.height == b.height;
    } else {
      assert b in InsertRow(table, b);
    }
  }

  lemma {:induction false} InsertRowsSaves(table: set<Block>, rows: seq<Block>, heightOf: Hash -> int)
    requires RowsOk(table, heightOf) && forall i :: 0 <= i < |rows| ==> rows[i].height == heightOf(rows[i].hash)
    ensures table <= InsertRows(table, rows) && RowsOk(InsertRows(table, rows), heightOf)
    ensures forall i :: 0 <= i < |rows| ==> HasHeight(InsertRows(table, rows), rows[i].height)
  {
    if rows != [] {
      var n := |rows| - 1;
      var init := rows[..n];
      InsertRowsSaves(table, init, heightOf);
      var t := InsertRows(table, init);
      InsertRowSaves(t, rows[n], heightOf);
      forall i | 0 <= i < n ensures HasHeight(InsertRows(table, rows), rows[i].height) {
        assert HasHeight(t, init[i].height);
        var r :| r in t && r.height == init[i].height;
        assert r in InsertRows(table, rows);
      }
    }
  }

  lemma FetchedHonest(env: Env, heightOf: Hash -> int, i: int)
    requires Honest(env, heightOf) && Fetched(env, i)
    ensures BlockAt(env, i).height == i == heightOf(BlockAt(env, i).hash)
  {
    var h := env.blockHash(i).value;
    assert env.blockVerbose(h).value.hash == h;
  }

  /** One call keeps all rows, and saves every height it moves the cursor over. */
  lemma CallSaves(db: Db, startNum: Uint64, env: Env, heightOf: Hash -> int)
    requires Honest(env, heightOf) && RowsOk(db.table, heightOf)
    ensures var db' := RunSyncSpec(db, startNum, env).0;
      && db.table <= db'.table && RowsOk(db'.table, heightOf)
      && (forall h :: Cursor(db, startNum) < h <= Cursor(db', startNum) ==> HasHeight(db'.table, h))
  {
    var db' := RunSyncSpec(db, startNum, env).0;
    var from := Cursor(db, startNum) + 1;
    if env.blockCount.Some? && env.presentOk && from <= env.blockCount.value
       && AllFetched(env, from, env.blockCount.value)
    {
      var rows := Blocks(env, from, env.blockCount.value);
      forall i | 0 <= i < |rows| ensures rows[i].height == from + i == heightOf(rows[i].hash) {
        FetchedHonest(env, heightOf, from + i);
      }
      InsertRowsSaves(db.table, rows, heightOf);
      if env.insertBlocks.InsertFails? {
        var kept := if env.insertBlocks.kept < |rows| then env.insertBlocks.kept else |rows|;
        InsertRowsSaves(db.table, rows[..kept], heightOf);
      }
      forall h | Cursor(db, startNum) < h <= Cursor(db', startNum) ensures HasHeight(db'.table, h) {
        assert rows[h - from].height == h;
      }
    }
  }

  /** Rows stay in order, none is lost, and every height passed since `from` has one. */
  ghost predicate Saved(startNum: Uint64, heightOf: Hash -> int, start: Db, p: Progress) {
    && start.table <= p.db.table && RowsOk(p.db.table, heightOf)
    && (forall h :: Cursor(start, startNum) < h <= Cursor(p.db, startNum) ==> HasHeight(p.db.table, h))
  }

  lemma CallKeepsSaved(startNum: Uint64, heightOf: Hash -> int, start: Db, p: Progress, env: Env)
    requires Saved(startNum, heightOf, start, p) && Honest(env, heightOf)
    ensures Saved(startNum, heightOf, start, Call(startNum, p, env))
  {
    var p' := Call(startNum, p, env);
    CallSaves(p.db, startNum, env, heightOf);
    forall h | Cursor(start, startNum) < h <= Cursor(p'.db, startNum) ensures HasHeight(p'.db.table, h) {
      if h <= Cursor(p.db, startNum) {
        assert HasHeight(p.db.table, h);
        var r :| r in p.db.table && r.height == h;
        assert r in p'.db.table;
      }
    }
  }

  ghost predicate AllHonest(envs: seq<Env>, heightOf: Hash -> int) {
    forall i :: 0 <= i < |envs| ==> Honest(envs[i], heightOf)
  }

  lemma HonestSplit(done: seq<Env>, env: Env, heightOf: Hash -> int)
    requires AllHonest(done + [env], heightOf)
    ensures AllHonest(done, heightOf) && Honest(env, heightOf)
  {
    assert (done + [env])[|done|] == env;
    assert forall i :: 0 <= i < |done| ==> (done + [env])[i] == done[i];
  }

  /** Over any calls with an honest node, every height the cursor has passed is saved. */
  lemma PassedIsSaved(startNum: Uint64, db: Db, envs: seq<Env>, heightOf: Hash -> int)
    requires RowsOk(db.table, heightOf) && AllHonest(envs, heightOf)
    ensures var p := Calls(startNum, db, envs);
      && db.table <= p.db.table
      && (forall h :: Cursor(db, startNum) < h <= Cursor(p.db, startNum) ==> HasHeight(p.db.table, h))
  {
    var step := (p, env) => Call(startNum, p, env);
    var P := (p, done) => AllHonest(done, heightOf) ==> Saved(startNum, heightOf, db, p);
    forall p, done, env | P(p, done) ensures P(step(p, env), done + [env]) {
      if AllHonest(done + [env], heightOf) {
        HonestSplit(done, env, heightOf);
        CallKeepsSaved(startNum, heightOf, db, p, env);
      }
    }
    assert Saved(startNum, heightOf, db, Progress(db, []));
    FoldKeeps(step, Progress(db, []), envs, P);
  }

  ghost predicate Apart(verbose: Cache<Block>, headers: Cache<Hash>)
    reads verbose, headers
  {
    verbose.keys != headers.keys
  }

  /** The two caches hold the blocks of the range, under their heights and in order. */
  ghost predicate CachesOf(verbose: Cache<Block>, headers: Cache<Hash>, env: Env, from: int, last: int)
    requires AllFetched(env, from, last)
    reads verbose, verbose.keys, headers, headers.keys
  {
    && verbose.Valid() && headers.Valid()
    && verbose.KeyList() == Range(from, last) && headers.KeyList() == Range(from, last)
    && forall i :: from <= i <= last ==> i in verbose.cache && verbose.cache[i] == BlockAt(env, i)
  }

  /** WorkerService with its database. */
  class WorkerService {
    const startNum: Uint64
    var row: Option<Uint64>
    var table: set<Block>

    ghost function State(): Db
      reads this
    {
      Db(row, table)
    }

    constructor (startNum: Uint64, db: Db)
      ensures this.startNum == startNum && State() == db
    {
      this.startNum := startNum;
      row, table := db.row, db.table;
    }

    /** FirstOrCreate of the cursor row. */
    method GetPresentBlockHeight(env: Env) returns (r: Option<Int64>)
      modifies this`row
      ensures !env.presentOk ==> r == None && row == old(row)
      ensures env.presentOk ==> r == Some(Cursor(old(State()), startNum))
      ensures env.presentOk ==> row == Some(if old(row).Some? then old(row).value else startNum)
    {
      if !env.presentOk {
        return None;
      }
      if row.None? {
        row := Some(startNum);
      }
      return Some(ToInt64(row.value));
    }

    /** GetBlocks. */
    method GetBlocks(env: Env, from: Int64, last: Int64) returns (r: Option<(Cache<Block>, Cache<Hash>)>)
      ensures r.Some? <==> AllFetched(env, from, last)
      ensures r.Some? ==> Apart(r.value.0, r.value.1) && CachesOf(r.value.0, r.value.1, env, from, last)
    {
      var verbose := new Cache<Block>();
      var headers := new Cache<Hash>();
      var i: int := from;
      while i <= last
        invariant from <= i && (i <= last + 1 || i == from) && AllFetched(env, from, i - 1)
        invariant fresh(verbose) && fresh(verbose.keys) && fresh(headers) && fresh(headers.keys)
        invariant Apart(verbose, headers) && CachesOf(verbose, headers, env, from, i - 1)
        decreases last - i + 1
      {
        var ok := GetBlock(env, i, verbose, headers, from);
        if !ok {
          return None;
        }
        i := i + 1;
      }
      return Some((verbose, headers));
    }

    /** The body of the loop of GetBlocks. */
    method GetBlock(env: Env, i: int, verbose: Cache<Block>, headers: Cache<Hash>, ghost from: int) returns (ok: bool)
      requires from <= i && AllFetched(env, from, i - 1)
      requires Apart(verbose, headers) && CachesOf(verbose, headers, env, from, i - 1)
      modifies verbose, verbose.keys, headers, headers.keys
      ensures ok <==> Fetched(env, i)
      ensures ok ==> Apart(verbose, headers) && CachesOf(verbose, headers, env, from, i)
      ensures verbose.keys == old(verbose.keys) || fresh(verbose.keys)
      ensures headers.keys == old(headers.keys) || fresh(headers.keys)
    {
      assert i !in verbose.KeyList() && i !in headers.KeyList();
      assert Range(from, i) == Range(from, i - 1) + [i];
      var blockHash := env.blockHash(i);
      if blockHash.None? {
        return false;
      }
      var blockVerbose := env.blockVerbose(blockHash.value);
      if blockVerbose.None? {
        return false;
      }
      verbose.Set(i, blockVerbose.value);
      if !env.headerOk(blockHash.value) {
        return false;
      }
      headers.Set(i, blockHash.value);
      return true;
    }

    /** SaveBlocks: the rows of the blocks under the header keys, in that order. */
    method SaveBlocks(env: Env, headers: Cache<Hash>, verbose: Cache<Block>, ghost from: int, ghost last: int)
      returns (ok: bool)
      requires AllFetched(env, from, last) && CachesOf(verbose, headers, env, from, last)
      modifies this`table
      ensures ok <==> env.insertBlocks.Inserted?
      ensures table == InsertBatch(old(table), Blocks(env, from, last), env.insertBlocks)
    {
      var rows: seq<Block> := [];
      for k := 0 to headers.len
        invariant rows == Blocks(env, from, last)[..k] && table == old(table)
      {
        var blockHeight := headers.keys[k];
        assert blockHeight == headers.KeyList()[k] == from + k;
        var block := verbose.Get(blockHeight);
        assert block == Some(BlockAt(env, from + k));
        rows := rows + [block.value];
      }
      assert rows == Blocks(env, from, last);
      table := InsertBatch(table, rows, env.insertBlocks);
      return env.insertBlocks.Inserted?;
    }

    /** UpdateChain: read the row, then write it back with the new height. */
    method UpdateChain(env: Env, blockHeight: Int64) returns (ok: bool)
      requires row.Some?
      modifies this`row
      ensures ok <==> env.chainReadOk && env.chainSaveOk
      ensures row == if ok then Some(ToUint64(blockHeight)) else old(row)
    {
      if !env.chainReadOk {
        return false;
      }
      if !env.chainSaveOk {
        return false;
      }
      row := Some(ToUint64(blockHeight));
      return true;
    }

    method RunSync(env: Env) returns (r: Outcome)
      modifies this
      ensures (State(), r) == RunSyncSpec(old(State()), startNum, env)
    {
      if env.blockCount.None? {
        return Failed(CurrentHeight);
      }
      var current := env.blockCount.value;
      var present := GetPresentBlockHeight(env);
      if present.None? {
        return Failed(PresentHeight);
      }
      if present.value >= current {
        return UpToDate;
      }
      r := SyncRange(env, present.value + 1, current);
    }

    /** The second half of RunSync, once the range is known. */
    method SyncRange(env: Env, begin: Int64, end: Int64) returns (r: Outcome)
      requires row.Some?
      modifies this
      ensures (State(), r) == SyncRangeSpec(old(State()), env, begin, end)
    {
      var blocks := GetBlocks(env, begin, end);
      if blocks.None? {
        return Failed(FetchBlocks);
      }
      var ok := SaveBlocks(env, blocks.value.1, blocks.value.0, begin, end);
      if !ok {
        return Failed(Stage.SaveBlocks);
      }
      if !env.saveTransactionsOk {
        return Failed(SaveTransactions);
      }
      if !env.saveFilesOk {
        return Failed(SaveFiles);
      }
      // GenerateBrief walks the same keys and never fails.
      var heights := blocks.value.0.keys[..blocks.value.0.len];
      ok := UpdateChain(env, end);
      if !ok {
        return Failed(Stage.UpdateChain);
      }
      return Synced(heights);
    }
  }
}
