/**
 * The replica side of master/slave replication (src/replication/slave.cpp).
 *
 * A Slave connects to the configured master, authenticates, asks for the
 * master's identity, announces its listening port, requests a partial or a
 * full resynchronisation, receives and loads a snapshot, and from then on
 * applies the stream of commands the master forwards.
 *
 * The collaborators the replica drives are kept as plain state next to it:
 * the replication backlog (write-ahead log with its start offset and
 * checksum, the applied "data" offset and checksum, the server key), the
 * store (a log of what was executed on it), the network (a log of the lines
 * written to the master and a close-requested flag) and the snapshot file.
 */
module Replication {
  import opened Strings
  import opened Wal
  import ReplyArena
  import opened Wrappers

  type uint32 = x: int | 0 <= x < UINT32_LIMIT

  datatype SlaveState =
    | Invalid
    | Connecting
    | WaitingAuthReply
    | WaitingInfoReply
    | WaitingReplconfReply
    | WaitingPsyncReply
    | WaitingSnapshot
    | LoadingSnapshot
    | Synced

  /** Which decoder the master connection's pipeline runs. */
  datatype DecoderMode = ReplyDecoder | CommandDecoder | DumpFileDecoder

  /** A decoded reply from the master: its type code and its text. */
  datatype Reply = Reply(rtype: int, str: string)

  /** A piece of the snapshot the master streams after a full resync. */
  datatype Chunk = Chunk(first: bool, last: bool, data: Bytes)

  /** What the replica does to its store. */
  datatype StoreOp = Exec(cmd: Bytes) | FlushAll | Load(snapshot: Bytes)

  /** The per-connection part of the replica's state (m_status). */
  datatype Status = Status(
    state: SlaveState,
    serverIsRedis: bool,
    serverSupportPsync: bool,
    cachedRunId: string,
    cachedOffset: int,
    cachedCksm: uint64,
    replayingWal: bool)

  /** The status as a fresh connection attempt starts from it. */
  const ClearedStatus := Status(Invalid, false, false, "", 0, 0, false)

  // ---------------------------------------------------------------------
  // The replication backlog
  // ---------------------------------------------------------------------

  /**
   * The write-ahead log holds the bytes from offset `walStart` up to its end
   * offset; `dataOffset` is how far the store has applied it.
   */
  datatype Backlog = Backlog(
    walStart: int,
    walLog: Bytes,
    walCksm: uint64,
    dataOffset: int,
    dataCksm: uint64,
    serverKey: string)

  function WalEnd(b: Backlog): int {
    b.walStart + |b.walLog|
  }

  predicate InWindow(b: Backlog) {
    b.walStart <= b.dataOffset <= WalEnd(b)
  }

  /** The logged bytes the store has not applied yet. */
  function Pending(b: Backlog): Bytes
    requires InWindow(b)
  {
    b.walLog[b.dataOffset - b.walStart..]
  }

  /** What a replay from the data offset hands over: nothing when that offset is outside the log. */
  function Window(b: Backlog): Bytes {
    if InWindow(b) then Pending(b) else []
  }

  /**
   * The applied data and the log form one history: the data offset lies
   * within the log, what lies beyond it is whole commands, and the log's
   * checksum is the data checksum carried over those commands.
   */
  predicate Continuous(b: Backlog) {
    InWindow(b) && Framed(Pending(b)) && b.walCksm == Cksm(b.dataCksm, Pending(b))
  }

  predicate CaughtUp(b: Backlog) {
    b.dataOffset == WalEnd(b)
  }

  /** WriteWAL: the command's bytes go to the end of the log. */
  function WriteWal(b: Backlog, raw: Bytes): (r: Backlog)
    ensures WalEnd(r) == WalEnd(b) + |raw| && r.dataOffset == b.dataOffset
  {
    b.(walLog := b.walLog + raw, walCksm := Cksm(b.walCksm, raw))
  }

  /** UpdateDataOffsetCksm: the store has applied `bs`. */
  function Advance(b: Backlog, bs: Bytes): (r: Backlog)
    ensures r.dataOffset == b.dataOffset + |bs| && WalEnd(r) == WalEnd(b)
  {
    b.(dataOffset := b.dataOffset + |bs|, dataCksm := Cksm(b.dataCksm, bs))
  }

  /** ResetWALOffsetCksm: the log restarts, empty, at `offset`. */
  function ResetWal(b: Backlog, offset: int, cksm: uint64): (r: Backlog)
    ensures WalEnd(r) == offset && r.walCksm == cksm && r.dataOffset == b.dataOffset
  {
    b.(walStart := offset, walLog := [], walCksm := cksm)
  }

  /** ResetDataOffsetCksm. */
  function ResetData(b: Backlog, offset: int, cksm: uint64): (r: Backlog)
    ensures r.dataOffset == offset && r.dataCksm == cksm && r.walLog == b.walLog
  {
    b.(dataOffset := offset, dataCksm := cksm)
  }

  function Execs(fs: seq<Bytes>): (ops: seq<StoreOp>)
    ensures |ops| == |fs| && forall i :: 0 <= i < |fs| ==> ops[i] == Exec(fs[i])
  {
    seq(|fs|, i requires 0 <= i < |fs| => Exec(fs[i]))
  }

  /** Logging two pieces one after the other is logging them together. */
  lemma WriteWalAppend(b: Backlog, x: Bytes, y: Bytes)
    ensures WriteWal(WriteWal(b, x), y) == WriteWal(b, x + y)
  {
    CksmAppend(b.walCksm, x, y);
    assert (b.walLog + x) + y == b.walLog + (x + y);
  }

  /** Applying two pieces one after the other advances over both together. */
  lemma AdvanceAppend(b: Backlog, x: Bytes, y: Bytes)
    ensures Advance(Advance(b, x), y) == Advance(b, x + y)
  {
    CksmAppend(b.dataCksm, x, y);
  }

  /**
   * Setting the data offset and checksum to the start of a log of whole
   * commands, checksummed from there, makes one history in which the whole
   * log is still to be applied.
   */
  lemma ResetDataContinuous(b: Backlog, offset: int, cksm: uint64)
    requires b.walStart == offset && Framed(b.walLog) && b.walCksm == Cksm(cksm, b.walLog)
    ensures Continuous(ResetData(b, offset, cksm)) && Pending(ResetData(b, offset, cksm)) == b.walLog
  {
    var r := ResetData(b, offset, cksm);
    assert Pending(r) == b.walLog[0..] == b.walLog;
  }

  /** Logging the commands of `during` one at a time: the first `i + 1` of them. */
  lemma LoggedStep(b: Backlog, during: seq<Bytes>, i: nat)
    requires i < |during|
    ensures WriteWal(WriteWal(b, Flatten(during[..i])), during[i]) == WriteWal(b, Flatten(during[..i + 1]))
  {
    assert during[..i + 1] == during[..i] + [during[i]];
    FlattenAppend(during[..i], [during[i]]);
    FlattenOne(during[i]);
    WriteWalAppend(b, Flatten(during[..i]), during[i]);
  }

  lemma FlattenOne(c: Bytes)
    ensures Flatten([c]) == c
  {
    assert [c][1..] == [];
    assert c + [] == c;
  }

  /** Whole commands are never empty, so their bytes are empty exactly when there are none. */
  lemma FlattenEmpty(fs: seq<Bytes>)
    requires forall i :: 0 <= i < |fs| ==> IsFrame(fs[i])
    ensures Flatten(fs) == [] <==> fs == []
  {
    if fs != [] {
      assert IsFrame(fs[0]);
    }
  }

  /** The log holds exactly the commands `during`, from `offset` on, checksummed from `cksm`. */
  predicate LogOf(b: Backlog, offset: int, cksm: uint64, during: seq<Bytes>) {
    b.walStart == offset && b.walLog == Flatten(during) && b.walCksm == Cksm(cksm, b.walLog)
  }

  /** The backlog once the master's identity is taken and the whole log is applied. */
  function Adopted(b: Backlog, runId: string): Backlog {
    b.(dataOffset := WalEnd(b), dataCksm := b.walCksm, serverKey := runId)
  }

  /**
   * Taking over the master's run id, setting the data offset and checksum to
   * the start of a log of whole commands and replaying in SYNCED executes
   * exactly those commands, in order, and ends in a continuous, caught-up
   * history; the replay cache is cleared only when there were none.
   */
  lemma AdoptCatchesUp(b: Backlog, offset: int, cksm: uint64, runId: string, during: seq<Bytes>)
    requires LogOf(b, offset, cksm, during) && forall i :: 0 <= i < |during| ==> IsFrame(during[i])
    ensures var r := ReplayEffect(Synced, false, ResetData(b.(serverKey := runId), offset, cksm));
      r == Replay(Adopted(b, runId), Execs(during), during == []) &&
      Continuous(Adopted(b, runId)) && CaughtUp(Adopted(b, runId))
  {
    FramesOfFlatten(during);
    FlattenEmpty(during);
    ResetDataContinuous(b.(serverKey := runId), offset, cksm);
    ReplayCatchesUp(ResetData(b.(serverKey := runId), offset, cksm));
  }

  /**
   * The log while a snapshot loads: reset to the master's offset and
   * checksum under a throw-away key, with the commands received meanwhile.
   */
  function LoggedFrom(b: Backlog, status0: Status, randomKey: string, during: seq<Bytes>): Backlog {
    WriteWal(ResetWal(b.(serverKey := randomKey), status0.cachedOffset, status0.cachedCksm), Flatten(during))
  }

  /** While the snapshot loads, the log holds exactly the commands received meanwhile. */
  lemma LoggedWhileLoading(b: Backlog, status0: Status, randomKey: string, during: seq<Bytes>)
    ensures LogOf(LoggedFrom(b, status0, randomKey, during), status0.cachedOffset, status0.cachedCksm, during)
  {
    assert [] + Flatten(during) == Flatten(during);
  }

  /**
   * After a full resync the history is one again: with the log reset to the
   * master's offset and checksum, the commands received while the snapshot
   * loaded logged there, and the whole log applied, it is continuous and
   * caught up, its data checksum carried from the master's over exactly
   * those commands.
   */
  lemma ResyncCatchesUp(b: Backlog, status0: Status, randomKey: string, during: seq<Bytes>)
    requires forall i :: 0 <= i < |during| ==> IsFrame(during[i])
    ensures var a := Adopted(LoggedFrom(b, status0, randomKey, during), status0.cachedRunId);
      Continuous(a) && CaughtUp(a) && a.walStart == status0.cachedOffset && a.walLog == Flatten(during) &&
      a.dataCksm == Cksm(status0.cachedCksm, Flatten(during))
  {
    LoggedWhileLoading(b, status0, randomKey, during);
    AdoptCatchesUp(LoggedFrom(b, status0, randomKey, during), status0.cachedOffset, status0.cachedCksm,
                   status0.cachedRunId, during);
  }

  /** The backlog after a replay, what the replay executed, and whether the replay cache was cleared. */
  datatype Replay = Replay(repl: Backlog, ops: seq<StoreOp>, cacheCleared: bool)

  /** What ReplayWAL() does, given the state, the replay guard and the backlog. */
  function ReplayEffect(state: SlaveState, replaying: bool, b: Backlog): Replay {
    if state != Synced then Replay(b, [], false)
    else if b.dataOffset == WalEnd(b) then Replay(b, [], true)
    else if replaying then Replay(b, [], false)
    else
      var fs := Frames(Window(b));
      Replay(Advance(b, Flatten(fs)), Execs(fs), false)
  }

  /** What HandleRedisCommand does to the backlog and the store. */
  function ReceiveEffect(state: SlaveState, replaying: bool, b: Backlog, raw: Bytes): Replay {
    var w := WriteWal(b, raw);
    if state == Synced && b.dataOffset + |raw| == WalEnd(w) then Replay(Advance(w, raw), [Exec(raw)], false)
    else ReplayEffect(state, replaying, w)
  }

  /** Logging a whole command keeps the history continuous; the command joins the unapplied part. */
  lemma WriteWalContinuous(b: Backlog, raw: Bytes)
    requires Continuous(b) && IsFrame(raw)
    ensures Continuous(WriteWal(b, raw)) && Pending(WriteWal(b, raw)) == Pending(b) + raw
  {
    var w := WriteWal(b, raw);
    assert Pending(w) == Pending(b) + raw;
    FramedAppend(Pending(b), raw);
    CksmAppend(b.dataCksm, Pending(b), raw);
  }

  /**
   * In SYNCED, a replay of a continuous backlog executes every unapplied
   * command in log order and leaves the store caught up with the log, its
   * checksum equal to the log's.
   */
  lemma ReplayCatchesUp(b: Backlog)
    requires Continuous(b)
    ensures var r := ReplayEffect(Synced, false, b);
      Continuous(r.repl) && CaughtUp(r.repl) && r.repl == b.(dataOffset := WalEnd(b), dataCksm := b.walCksm) &&
      r.ops == Execs(Frames(Pending(b))) && r.cacheCleared == (Pending(b) == [])
  {
    var r := ReplayEffect(Synced, false, b);
    if b.dataOffset != WalEnd(b) {
      assert Flatten(Frames(Window(b))) == Pending(b);
      assert Pending(r.repl) == [];
    } else {
      assert Pending(b) == [];
      assert Frames(Pending(b)) == [];
    }
  }

  /** Caught up, a replay in SYNCED only clears the replay cache. */
  lemma ReplayWhenCaughtUp(b: Backlog, replaying: bool)
    requires CaughtUp(b)
    ensures ReplayEffect(Synced, replaying, b) == Replay(b, [], true)
  {
  }

  /** A replay does nothing outside SYNCED, and nothing while another replay is running. */
  lemma ReplayOnlyWhenSynced(state: SlaveState, replaying: bool, b: Backlog)
    requires state != Synced || (replaying && b.dataOffset != WalEnd(b))
    ensures ReplayEffect(state, replaying, b) == Replay(b, [], false)
  {
  }

  /**
   * The headline bookkeeping property: in SYNCED, with a continuous backlog,
   * receiving a command logs it and leaves the store having executed every
   * command it had not applied yet and then this one, caught up with the log.
   */
  lemma ReceiveInSync(b: Backlog, raw: Bytes)
    requires Continuous(b) && IsFrame(raw)
    ensures var r := ReceiveEffect(Synced, false, b, raw);
      Continuous(r.repl) && CaughtUp(r.repl) && r.repl.walLog == b.walLog + raw &&
      r.ops == Execs(Frames(Pending(b)) + [raw])
  {
    if b.dataOffset == WalEnd(b) {
      ReceiveCaughtUp(b, raw);
    } else {
      ReceiveBehind(b, raw);
    }
  }

  /** Caught up, the received command is executed straight away. */
  lemma ReceiveCaughtUp(b: Backlog, raw: Bytes)
    requires Continuous(b) && IsFrame(raw) && b.dataOffset == WalEnd(b)
    ensures ReceiveEffect(Synced, false, b, raw) == Replay(Advance(WriteWal(b, raw), raw), [Exec(raw)], false)
    ensures Continuous(Advance(WriteWal(b, raw), raw)) && CaughtUp(Advance(WriteWal(b, raw), raw))
    ensures Frames(Pending(b)) + [raw] == [raw] && Execs([raw]) == [Exec(raw)]
  {
    var w := Advance(WriteWal(b, raw), raw);
    assert Pending(b) == [];
    assert Frames(Pending(b)) == [];
    assert Pending(w) == [];
    FramedEmpty();
  }

  /** Behind the log, the received command is logged and the replay executes it after the rest. */
  lemma ReceiveBehind(b: Backlog, raw: Bytes)
    requires Continuous(b) && IsFrame(raw) && b.dataOffset != WalEnd(b)
    ensures ReceiveEffect(Synced, false, b, raw) == ReplayEffect(Synced, false, WriteWal(b, raw))
    ensures Continuous(WriteWal(b, raw)) && Pending(WriteWal(b, raw)) == Pending(b) + raw
    ensures Frames(Pending(b) + raw) == Frames(Pending(b)) + [raw]
  {
    WriteWalContinuous(b, raw);
    FramedAppend(Pending(b), raw);
  }

  /** Outside SYNCED a received command is only logged. */
  lemma ReceiveWhileNotSynced(state: SlaveState, replaying: bool, b: Backlog, raw: Bytes)
    requires state != Synced && Continuous(b) && IsFrame(raw)
    ensures var r := ReceiveEffect(state, replaying, b, raw);
      r.ops == [] && r.repl == WriteWal(b, raw) && Continuous(r.repl) &&
      Pending(r.repl) == Pending(b) + raw
  {
    WriteWalContinuous(b, raw);
  }

  /** An empty log starting where the data stands, with the data's checksum, is a fresh, caught-up history. */
  lemma FreshHistory(b: Backlog)
    requires b.walLog == [] && b.walStart == b.dataOffset && b.walCksm == b.dataCksm
    ensures Continuous(b) && CaughtUp(b) && Pending(b) == []
  {
    var p := Pending(b);
    assert p == [];
    assert Frames(p) == [];
    assert Flatten(Frames(p)) == p;
    assert Cksm(b.dataCksm, p) == b.walCksm;
  }

  /** Resetting log and data to the same offset and checksum starts a fresh, caught-up history. */
  lemma ResetBothContinuous(b: Backlog, offset: int, cksm: uint64)
    ensures Continuous(ResetData(ResetWal(b, offset, cksm), offset, cksm))
    ensures CaughtUp(ResetData(ResetWal(b, offset, cksm), offset, cksm))
  {
    FreshHistory(ResetData(ResetWal(b, offset, cksm), offset, cksm));
  }

  /**
   * The loop of ReplayWAL(log, len): decode one command at a time from the
   * head of what is left, execute it on the store and advance the data
   * offset and checksum over its raw bytes; stop at the end of the buffer or
   * at the first command that does not decode.
   */
  method ReplayCommands(buf: Bytes, store0: seq<StoreOp>, repl0: Backlog) returns (executed: seq<StoreOp>, backlog: Backlog)
    ensures executed == store0 + Execs(Frames(buf)) && backlog == Advance(repl0, Flatten(Frames(buf)))
  {
    var pos := 0;
    executed, backlog := store0, repl0;
    ghost var done: seq<Bytes> := [];
    assert buf[0..] == buf;
    while pos < |buf|
      invariant Replayed(buf, pos, done, executed, backlog, store0, repl0)
      decreases |buf| - pos
    {
      var n := FrameLength(buf[pos..]);
      if n == 0 {
        break;
      }
      var cmd := buf[pos..pos + n];
      ReplayAdvances(buf, pos, n, done, executed, backlog, store0, repl0);
      executed := executed + [Exec(cmd)];
      backlog := Advance(backlog, cmd);
      done := done + [cmd];
      pos := pos + n;
    }
    assert Frames(buf[pos..]) == [] by {
      if pos == |buf| {
        assert buf[pos..] == [];
      }
    }
    assert done + [] == done;
  }

  /** The command decoded at `pos` is the next one after those decoded before it. */
  lemma FramesAt(buf: Bytes, pos: nat, n: nat, done: seq<Bytes>)
    requires pos <= |buf| && n == FrameLength(buf[pos..]) > 0
    requires Frames(buf) == done + Frames(buf[pos..])
    ensures pos + n <= |buf| && Frames(buf) == (done + [buf[pos..pos + n]]) + Frames(buf[pos + n..])
  {
    FramesFrom(buf, pos, n);
    Extend(Frames(buf), done, buf[pos..pos + n], Frames(buf[pos..]), Frames(buf[pos + n..]));
  }

  /** Decoding from `pos` yields the command at `pos`, then whatever decodes after it. */
  lemma FramesFrom(buf: Bytes, pos: nat, n: nat)
    requires pos <= |buf| && n == FrameLength(buf[pos..]) > 0
    ensures pos + n <= |buf| && Frames(buf[pos..]) == [buf[pos..pos + n]] + Frames(buf[pos + n..])
  {
    assert buf[pos..][..n] == buf[pos..pos + n];
    assert buf[pos..][n..] == buf[pos + n..];
  }

  lemma Extend<T>(whole: seq<T>, done: seq<T>, c: T, x: seq<T>, y: seq<T>)
    requires whole == done + x && x == [c] + y
    ensures whole == (done + [c]) + y
  {
  }

  /**
   * The replay loop's invariant: the commands `done` decoded so far are the
   * head of what decoding the whole buffer gives, and exactly they have been
   * executed and advanced over.
   */
  ghost predicate Replayed(buf: Bytes, pos: nat, done: seq<Bytes>, executed: seq<StoreOp>, backlog: Backlog,
                           store0: seq<StoreOp>, repl0: Backlog) {
    pos <= |buf| && Frames(buf) == done + Frames(buf[pos..]) &&
    executed == store0 + Execs(done) && backlog == Advance(repl0, Flatten(done))
  }

  /** One turn of the replay loop keeps its invariant, with the command at `pos` done. */
  lemma ReplayAdvances(buf: Bytes, pos: nat, n: nat, done: seq<Bytes>, executed: seq<StoreOp>, backlog: Backlog,
                       store0: seq<StoreOp>, repl0: Backlog)
    requires Replayed(buf, pos, done, executed, backlog, store0, repl0) && n == FrameLength(buf[pos..]) > 0
    ensures pos + n <= |buf|
    ensures Replayed(buf, pos + n, done + [buf[pos..pos + n]], executed + [Exec(buf[pos..pos + n])],
                     Advance(backlog, buf[pos..pos + n]), store0, repl0)
  {
    FramesAt(buf, pos, n, done);
    ReplayStep(repl0, done, buf[pos..pos + n]);
  }

  /** Applying one more command extends the executions and advances the backlog over its bytes. */
  lemma ReplayStep(b: Backlog, done: seq<Bytes>, cmd: Bytes)
    ensures Execs(done + [cmd]) == Execs(done) + [Exec(cmd)]
    ensures Advance(Advance(b, Flatten(done)), cmd) == Advance(b, Flatten(done + [cmd]))
  {
    FlattenAppend(done, [cmd]);
    assert Flatten([cmd]) == cmd + Flatten([]);
    assert cmd + [] == cmd;
    AdvanceAppend(b, Flatten(done), cmd);
  }

  // ---------------------------------------------------------------------
  // Protocol text
  // ---------------------------------------------------------------------

  /** printf "%llu" of an int64: the value read as an unsigned 64-bit number. */
  function U64Text(x: int): string {
    NatToString(x % UINT64_LIMIT)
  }

  const AUTH_PREFIX := "auth "
  const CRLF := "\r\n"
  const INFO_LINE := "info Server\r\n"
  const SYNC_LINE := "sync\r\n"
  const REDIS_VERSION_KEY := "redis_version:"
  const COMMS_VERSION_KEY := "comms_version:"

  function ReplconfLine(port: uint32): string {
    "replconf listening-port " + NatToString(port) + CRLF
  }

  /** The psync request: the checksum is only offered to a Comms master. */
  function PsyncLine(serverIsRedis: bool, b: Backlog): string {
    if serverIsRedis then "psync " + b.serverKey + " " + IntToString(WalEnd(b)) + CRLF
    else "psync " + b.serverKey + " " + IntToString(WalEnd(b)) + " cksm " + NatToString(b.walCksm) + CRLF
  }

  function AckLine(dataOffset: int): string {
    "REPLCONF ACK " + U64Text(dataOffset) + CRLF
  }

  /**
   * The text of the "redis_version:" field of an INFO reply: from after the
   * key up to the next newline (or the end), trimmed.
   */
  function InfoVersion(info: string): string
    requires Contains(info, REDIS_VERSION_KEY)
  {
    var start := Find(info, REDIS_VERSION_KEY, 0).value;
    VersionValue(info, start + |REDIS_VERSION_KEY|, Find(info, "\n", start))
  }

  /** The trimmed text from `from` up to the line end `end`, or to the end of the text. */
  function VersionValue(info: string, from: nat, end: Option<nat>): string
    requires from <= |info|
  {
    match end
    case Some(e) => if from <= e <= |info| then Trim(info[from..e]) else ""
    case None => Trim(info[from..])
  }

  /**
   * In an INFO text whose "redis_version:" line is the first to carry the
   * key (nothing before it has a colon), the version is that line's value.
   */
  lemma InfoVersionOf(info: string, pre: string, v: string, rest: string)
    requires info == pre + REDIS_VERSION_KEY + v + "\n" + rest
    requires ':' !in pre && '\n' !in v
    ensures Contains(info, REDIS_VERSION_KEY) && InfoVersion(info) == Trim(v)
  {
    var p := |pre|;
    var from := p + |REDIS_VERSION_KEY|;
    var q := from + |v|;
    VersionKeyFirst(info, pre, v + "\n" + rest);
    VersionLineOneLine(info, pre, v, rest);
    FirstNewline(info, p, q);
    assert info[from..q] == v;
    InfoVersionAt(info, p, q);
  }

  /** Between the key and the line end there is no other line end. */
  lemma VersionLineOneLine(info: string, pre: string, v: string, rest: string)
    requires info == pre + REDIS_VERSION_KEY + v + "\n" + rest && '\n' !in v
    ensures |pre| + |REDIS_VERSION_KEY| + |v| < |info|
    ensures info[|pre| + |REDIS_VERSION_KEY| + |v|] == '\n'
    ensures forall j :: |pre| <= j < |pre| + |REDIS_VERSION_KEY| + |v| ==> info[j] != '\n'
  {
    var p := |pre|;
    var from := p + |REDIS_VERSION_KEY|;
    forall j | p <= j < from + |v| ensures info[j] != '\n' {
      if j < from {
        assert info[j] == REDIS_VERSION_KEY[j - p];
      } else {
        assert info[j] == v[j - from];
      }
    }
  }

  lemma InfoVersionAt(info: string, p: nat, q: nat)
    requires Find(info, REDIS_VERSION_KEY, 0) == Some(p) && Find(info, "\n", p) == Some(q)
    requires p + |REDIS_VERSION_KEY| <= q
    ensures InfoVersion(info) == Trim(info[p + |REDIS_VERSION_KEY|..q])
  {
    assert OccursAt(info, "\n", q);
  }

  /** The key is first found where it starts, when nothing before it has a colon. */
  lemma VersionKeyFirst(info: string, pre: string, tail: string)
    requires info == pre + REDIS_VERSION_KEY + tail && ':' !in pre
    ensures Find(info, REDIS_VERSION_KEY, 0) == Some(|pre|)
  {
    var key := REDIS_VERSION_KEY;
    var p := |pre|;
    assert info[p..p + |key|] == key;
    forall j | 0 <= j < p ensures !OccursAt(info, key, j) {
      if j + |key| <= |info| {
        assert info[j..j + |key|][|key| - 1] == info[j + |key| - 1];
        if j + |key| - 1 < p {
          assert info[j + |key| - 1] == pre[j + |key| - 1];
        } else {
          assert info[j + |key| - 1] == key[j + |key| - 1 - p];
        }
      }
    }
    FindIs(info, key, 0, p);
  }

  lemma FirstNewline(s: string, from: nat, q: nat)
    requires from <= q < |s| && s[q] == '\n'
    requires forall j :: from <= j < q ==> s[j] != '\n'
    ensures Find(s, "\n", from) == Some(q)
  {
    assert s[q..q + 1] == "\n";
    forall j | from <= j < q ensures !OccursAt(s, "\n", j) {
      assert s[j..j + 1][0] == s[j];
    }
    FindIs(s, "\n", from, q);
  }

  /** The numeric value of the `i`th dot-separated part of a version, 0 when missing. */
  function VersionPart(v: string, i: nat): nat {
    var parts := Split(v, '.');
    if i < |parts| then DigitsValue(DigitPrefix(TrimLeft(parts[i], Space))) else 0
  }

  /** compare_version<3>(v, "2.7.0") >= 0: the first three parts compared in order. */
  predicate SupportsPsync(v: string) {
    var major, minor, patch := VersionPart(v, 0), VersionPart(v, 1), VersionPart(v, 2);
    major > 2 || (major == 2 && (minor > 7 || (minor == 7 && patch >= 0)))
  }

  /** The version text "a.b.c". */
  function VersionText(a: nat, b: nat, c: nat): string {
    Join([NatToString(a), NatToString(b), NatToString(c)], '.')
  }

  /** Partial resync is supported exactly from version 2.7.0 on, whatever the patch level. */
  lemma SupportsPsyncOf(a: nat, b: nat, c: nat)
    ensures SupportsPsync(VersionText(a, b, c)) <==> a > 2 || (a == 2 && b >= 7)
  {
    VersionPartsOf(a, b, c);
  }

  /** Each part of "a.b.c" reads back as the number written there. */
  lemma VersionPartsOf(a: nat, b: nat, c: nat)
    ensures VersionPart(VersionText(a, b, c), 0) == a
    ensures VersionPart(VersionText(a, b, c), 1) == b
    ensures VersionPart(VersionText(a, b, c), 2) == c
  {
    var ps := [NatToString(a), NatToString(b), NatToString(c)];
    forall k | 0 <= k < |ps| ensures '.' !in ps[k] {
      forall i | 0 <= i < |ps[k]| ensures ps[k][i] != '.' {
        assert IsDigit(ps[k][i]);
      }
    }
    SplitJoin(ps, '.');
    NumberPart(a);
    NumberPart(b);
    NumberPart(c);
  }

  lemma NumberPart(n: nat)
    ensures DigitsValue(DigitPrefix(TrimLeft(NatToString(n), Space))) == n
  {
    var d := NatToString(n);
    AtollOfNumberThen(n, []);
    assert d + [] == d;
    assert IsDigit(d[0]);
  }

  /** Elapsed seconds between two 32-bit time stamps, wrapping as uint32 subtraction does. */
  function Elapsed(now: uint32, since: uint32): (r: uint32)
    ensures since <= now ==> r == now - since
    ensures now < since ==> r == now - since + UINT32_LIMIT
  {
    (now - since) % UINT32_LIMIT
  }

  // ---------------------------------------------------------------------
  // The replica
  // ---------------------------------------------------------------------

  class Slave {
    // configuration
    const masterHost: string
    const masterauth: string
    const replTimeout: int
    const primaryPort: uint32
    const clearDbBeforeFullresync: bool

    // the replica itself
    var status: Status
    var hasClient: bool
    var closeRequested: bool
    var decoder: DecoderMode
    var cmdRecvedTime: uint32
    var lastInteraction: uint32
    var linkDownTime: uint32
    var routineTs: uint32
    var snapshot: Bytes
    var snapshotOpen: bool
    var snapshotOffset: int
    var snapshotCksm: uint64

    // collaborators
    var repl: Backlog
    var store: seq<StoreOp>
    var sent: seq<string>
    var downstreamDisconnects: nat
    var replayCacheClears: nat

    /**
     * Between events no replay is running, and without a connection there is
     * nothing to close and the state is INVALID.
     */
    predicate Valid()
      reads this
    {
      !status.replayingWal && (!hasClient ==> status.state == Invalid && !closeRequested)
    }

    constructor(masterHost: string, masterauth: string, replTimeout: int, primaryPort: uint32,
                clearDbBeforeFullresync: bool, repl: Backlog)
      ensures this.masterHost == masterHost && this.masterauth == masterauth
      ensures this.replTimeout == replTimeout && this.primaryPort == primaryPort
      ensures this.clearDbBeforeFullresync == clearDbBeforeFullresync
      ensures status == ClearedStatus && !hasClient && !closeRequested
      ensures cmdRecvedTime == 0 && linkDownTime == 0 && routineTs == 0 && lastInteraction == 0
      ensures this.repl == repl && store == [] && sent == []
      ensures Valid()
    {
      this.masterHost := masterHost;
      this.masterauth := masterauth;
      this.replTimeout := replTimeout;
      this.primaryPort := primaryPort;
      this.clearDbBeforeFullresync := clearDbBeforeFullresync;
      status := ClearedStatus;
      hasClient := false;
      closeRequested := false;
      decoder := ReplyDecoder;
      cmdRecvedTime := 0;
      lastInteraction := 0;
      linkDownTime := 0;
      routineTs := 0;
      snapshot := [];
      snapshotOpen := false;
      snapshotOffset := 0;
      snapshotCksm := 0;
      this.repl := repl;
      store := [];
      sent := [];
      downstreamDisconnects := 0;
      replayCacheClears := 0;
    }

    /** IsSynced */
    predicate IsSynced()
      reads this
    {
      hasClient && status.state == Synced
    }

    /** Close: ask the connection, if any, to close. */
    method Close()
      modifies this`closeRequested
      ensures closeRequested == (old(closeRequested) || hasClient)
    {
      if hasClient {
        closeRequested := true;
      }
    }

    /** Timeout */
    method Timeout()
      modifies this`closeRequested
      ensures closeRequested == (old(closeRequested) || hasClient)
    {
      Close();
    }

    /** Stop */
    method Stop()
      modifies this`status, this`closeRequested
      ensures status == old(status).(state := Invalid)
      ensures closeRequested == (old(closeRequested) || hasClient)
    {
      status := status.(state := Invalid);
      Close();
    }

    /** ChannelClosed: the connection is gone and the per-connection status starts over. */
    method ChannelClosed(now: uint32)
      modifies this`hasClient, this`closeRequested, this`status, this`lastInteraction, this`linkDownTime
      ensures !hasClient && !closeRequested && status == ClearedStatus
      ensures lastInteraction == now && linkDownTime == now
      ensures Valid()
    {
      lastInteraction := now;
      linkDownTime := now;
      hasClient := false;
      closeRequested := false;
      status := ClearedStatus;
    }

    /** ConnectMaster: open a connection unless there is no master or one is open already. */
    method ConnectMaster() returns (r: int)
      modifies this`hasClient, this`decoder, this`status
      ensures masterHost == [] ==> r == -1
      ensures masterHost == [] || old(hasClient) ==>
                hasClient == old(hasClient) && decoder == old(decoder) && status == old(status)
      ensures masterHost != [] ==> r == 0
      ensures masterHost != [] && !old(hasClient) ==>
                hasClient && decoder == ReplyDecoder && status == old(status).(state := Connecting)
    {
      if masterHost == [] {
        return -1;
      }
      if hasClient {
        return 0;
      }
      hasClient := true;
      decoder := ReplyDecoder;
      status := status.(state := Connecting);
      r := 0;
    }

    /** InfoMaster: ask for the master's identity. */
    method InfoMaster()
      modifies this`sent, this`status
      ensures sent == old(sent) + [INFO_LINE]
      ensures status == old(status).(state := WaitingInfoReply)
    {
      sent := sent + [INFO_LINE];
      status := status.(state := WaitingInfoReply);
    }

    /** ChannelConnected: authenticate first when a password is configured. */
    method ChannelConnected(now: uint32)
      modifies this`sent, this`status, this`lastInteraction, this`cmdRecvedTime, this`linkDownTime
      ensures lastInteraction == now && cmdRecvedTime == now && linkDownTime == 0
      ensures masterauth != [] ==>
                sent == old(sent) + [AUTH_PREFIX + masterauth + CRLF] &&
                status == old(status).(state := WaitingAuthReply)
      ensures masterauth == [] ==>
                sent == old(sent) + [INFO_LINE] && status == old(status).(state := WaitingInfoReply)
    {
      lastInteraction := now;
      cmdRecvedTime := now;
      linkDownTime := 0;
      if masterauth != [] {
        sent := sent + [AUTH_PREFIX + masterauth + CRLF];
        status := status.(state := WaitingAuthReply);
        return;
      }
      InfoMaster();
    }

    /**
     * ReplayWAL(log, len): execute the commands of `buf` one at a time while
     * the state is SYNCED, advancing the data offset and checksum by each
     * command's raw bytes, and stop at the first command that does not decode.
     */
    method ReplayLog(buf: Bytes)
      modifies this`store, this`repl
      ensures status.state == Synced ==>
                store == old(store) + Execs(Frames(buf)) && repl == Advance(old(repl), Flatten(Frames(buf)))
      ensures status.state != Synced ==> store == old(store) && repl == old(repl)
    {
      // Nothing in the loop changes the state: the event loop is not re-entered here.
      if status.state == Synced {
        store, repl := ReplayCommands(buf, store, repl);
      }
    }

    /**
     * ReplayWAL(): in SYNCED, replay the log from the data offset on, unless
     * nothing is pending (the replay cache is cleared) or a replay is already
     * running.  The guard is down again on return.
     */
    method ReplayWal()
      modifies this`store, this`repl, this`status, this`replayCacheClears
      ensures var r := ReplayEffect(old(status.state), old(status.replayingWal), old(repl));
        repl == r.repl && store == old(store) + r.ops &&
        replayCacheClears == old(replayCacheClears) + (if r.cacheCleared then 1 else 0)
      ensures status == old(status)
    {
      if status.state != Synced {
        return;
      }
      if repl.dataOffset == WalEnd(repl) {
        replayCacheClears := replayCacheClears + 1;
        return;
      }
      if status.replayingWal {
        return;
      }
      status := status.(replayingWal := true);
      ReplayLog(Window(repl));
      status := status.(replayingWal := false);
    }

    /**
     * HandleRedisCommand: log the command; apply it at once when SYNCED and
     * it is the only unapplied part of the log, otherwise replay the log.
     */
    method HandleRedisCommand(raw: Bytes, now: uint32)
      requires IsFrame(raw)
      modifies this`cmdRecvedTime, this`store, this`repl, this`status, this`replayCacheClears
      ensures cmdRecvedTime == now && status == old(status)
      ensures var r := ReceiveEffect(old(status.state), old(status.replayingWal), old(repl), raw);
        repl == r.repl && store == old(store) + r.ops &&
        replayCacheClears == old(replayCacheClears) + (if r.cacheCleared then 1 else 0)
    {
      var walOnly := status.state != Synced;
      cmdRecvedTime := now;
      repl := WriteWal(repl, raw);
      var len := |raw|;
      if !walOnly && repl.dataOffset + len == WalEnd(repl) {
        store := store + [Exec(raw)];
        repl := Advance(repl, raw);
        return;
      }
      ReplayWal();
    }

    /**
     * Routine, run once a second: replay, reconnect when disconnected, and
     * otherwise keep the link alive.
     */
    method Routine(now: uint32)
      modifies this`store, this`repl, this`status, this`replayCacheClears, this`hasClient, this`decoder
      modifies this`closeRequested, this`sent, this`routineTs
      ensures masterHost == [] ==> unchanged(this)
      ensures masterHost != [] ==>
                var r := ReplayEffect(old(status.state), old(status.replayingWal), old(repl));
                repl == r.repl && store == old(store) + r.ops &&
                replayCacheClears == old(replayCacheClears) + (if r.cacheCleared then 1 else 0)
      ensures masterHost != [] && !old(hasClient) ==>
                hasClient && decoder == ReplyDecoder && status == old(status).(state := Connecting) &&
                sent == old(sent) && closeRequested == old(closeRequested) && routineTs == old(routineTs)
      ensures masterHost != [] && old(hasClient) ==>
                hasClient && status == old(status) && decoder == old(decoder) && KeptAlive(old(sent), old(closeRequested), old(routineTs), now)
    {
      if masterHost == [] {
        return;
      }
      ReplayWal();
      if !hasClient {
        var _ := ConnectMaster();
        return;
      }
      KeepAlive(now);
    }

    /**
     * What the rest of Routine does on an open link: a SYNCED link the master
     * has been silent on for the replication timeout is closed; otherwise, in
     * SYNCED or LOADING_SNAPSHOT, the applied offset is acknowledged to a
     * master that supports partial resync, and the routine time stamp moves on.
     */
    ghost predicate KeptAlive(sent0: seq<string>, closeRequested0: bool, routineTs0: uint32, now: uint32)
      reads this
    {
      var stale := cmdRecvedTime > 0 && Elapsed(now, cmdRecvedTime) >= replTimeout;
      if status.state == Synced && stale then
        closeRequested && sent == sent0 && routineTs == routineTs0
      else if status.state == Synced || status.state == LoadingSnapshot then
        closeRequested == closeRequested0 && routineTs == now &&
        sent == sent0 + (if status.serverSupportPsync then [AckLine(repl.dataOffset)] else [])
      else
        closeRequested == closeRequested0 && routineTs == now && sent == sent0
    }

    method KeepAlive(now: uint32)
      requires hasClient
      modifies this`closeRequested, this`sent, this`routineTs
      ensures KeptAlive(old(sent), old(closeRequested), old(routineTs), now)
    {
      if status.state == Synced || status.state == LoadingSnapshot {
        if cmdRecvedTime > 0 && Elapsed(now, cmdRecvedTime) >= replTimeout {
          if status.state == Synced {
            Timeout();
            return;
          }
        }
        if status.serverSupportPsync && hasClient {
          sent := sent + [AckLine(repl.dataOffset)];
        }
      }
      routineTs := now;
    }

    /**
     * LoadRDBRoutine, called periodically while a snapshot loads: abort the
     * load once the state has left LOADING_SNAPSHOT, otherwise run Routine,
     * which neither replays nor times the link out in that state.
     */
    method LoadRdbRoutine(now: uint32) returns (r: int)
      modifies this`store, this`repl, this`status, this`replayCacheClears, this`hasClient, this`decoder
      modifies this`closeRequested, this`sent, this`routineTs
      ensures old(status.state) != LoadingSnapshot ==> r == -1 && unchanged(this)
      ensures old(status.state) == LoadingSnapshot ==> r == 0 && repl == old(repl) && store == old(store)
      ensures old(status.state) == LoadingSnapshot && masterHost != [] && old(hasClient) ==>
                status == old(status) && closeRequested == old(closeRequested) && routineTs == now &&
                sent == old(sent) + (if status.serverSupportPsync then [AckLine(repl.dataOffset)] else [])
    {
      if status.state != LoadingSnapshot {
        return -1;
      }
      ReplayOnlyWhenSynced(status.state, status.replayingWal, repl);
      Routine(now);
      r := 0;
    }

    /**
     * HandleRedisReply: the handshake.  Each waiting state accepts one reply;
     * any reply in any other state closes the link.
     */
    method HandleRedisReply(reply: Reply)
      requires hasClient
      requires (status.state == WaitingInfoReply && reply.rtype != ReplyArena.REPLY_ERROR &&
                !Contains(reply.str, COMMS_VERSION_KEY)) ==> Contains(reply.str, REDIS_VERSION_KEY)
      requires (status.state == WaitingPsyncReply && reply.rtype == ReplyArena.REPLY_STATUS &&
                EqualsIgnoreCase(Split(reply.str, ' ')[0], "FULLRESYNC")) ==> |Split(reply.str, ' ')| >= 3
      modifies this`status, this`sent, this`closeRequested, this`decoder
      ensures status.replayingWal == old(status.replayingWal)
      // AUTH: an error is logged and the link asked to close, yet the handshake goes on.
      ensures old(status.state) == WaitingAuthReply ==>
                sent == old(sent) + [INFO_LINE] && status == old(status).(state := WaitingInfoReply) &&
                closeRequested == (old(closeRequested) || reply.rtype == ReplyArena.REPLY_ERROR) &&
                decoder == old(decoder)
      // INFO
      ensures old(status.state) == WaitingInfoReply && reply.rtype == ReplyArena.REPLY_ERROR ==>
                closeRequested && sent == old(sent) && status == old(status) && decoder == old(decoder)
      ensures old(status.state) == WaitingInfoReply && reply.rtype != ReplyArena.REPLY_ERROR ==>
                var isRedis := !Contains(reply.str, COMMS_VERSION_KEY);
                status == old(status).(state := WaitingReplconfReply, serverIsRedis := isRedis,
                                       serverSupportPsync := !isRedis || SupportsPsync(InfoVersion(reply.str))) &&
                sent == old(sent) + [ReplconfLine(primaryPort)] &&
                closeRequested == old(closeRequested) && decoder == old(decoder)
      // REPLCONF
      ensures old(status.state) == WaitingReplconfReply && reply.rtype == ReplyArena.REPLY_ERROR ==>
                closeRequested && sent == old(sent) && status == old(status) && decoder == old(decoder)
      ensures old(status.state) == WaitingReplconfReply && reply.rtype != ReplyArena.REPLY_ERROR &&
              old(status.serverSupportPsync) ==>
                sent == old(sent) + [PsyncLine(old(status.serverIsRedis), repl)] &&
                status == old(status).(state := WaitingPsyncReply) &&
                closeRequested == old(closeRequested) && decoder == old(decoder)
      ensures old(status.state) == WaitingReplconfReply && reply.rtype != ReplyArena.REPLY_ERROR &&
              !old(status.serverSupportPsync) ==>
                sent == old(sent) + [SYNC_LINE] && status == old(status).(state := WaitingSnapshot) &&
                closeRequested == old(closeRequested) && decoder == DumpFileDecoder
      // PSYNC
      ensures old(status.state) == WaitingPsyncReply ==> sent == old(sent)
      ensures old(status.state) == WaitingPsyncReply && reply.rtype != ReplyArena.REPLY_STATUS ==>
                closeRequested && status == old(status) && decoder == old(decoder)
      ensures old(status.state) == WaitingPsyncReply && reply.rtype == ReplyArena.REPLY_STATUS ==>
                var ss := Split(reply.str, ' ');
                if EqualsIgnoreCase(ss[0], "FULLRESYNC") then
                  (ParseInt64(ss[2]).None? ==>
                     closeRequested && status == old(status) && decoder == old(decoder)) &&
                  (ParseInt64(ss[2]).Some? && |ss| > 3 && ParseUInt64(ss[3]).None? ==>
                     closeRequested && decoder == old(decoder) &&
                     status == old(status).(cachedRunId := ss[1], cachedOffset := ParseInt64(ss[2]).value)) &&
                  (ParseInt64(ss[2]).Some? && (|ss| <= 3 || ParseUInt64(ss[3]).Some?) ==>
                     closeRequested == old(closeRequested) && decoder == DumpFileDecoder &&
                     status == old(status).(state := WaitingSnapshot, cachedRunId := ss[1],
                                            cachedOffset := ParseInt64(ss[2]).value,
                                            cachedCksm := if |ss| > 3 then ParseUInt64(ss[3]).value
                                                          else old(status.cachedCksm)))
                else if EqualsIgnoreCase(ss[0], "CONTINUE") then
                  closeRequested == old(closeRequested) && decoder == CommandDecoder &&
                  status == old(status).(state := Synced)
                else
                  closeRequested && status == old(status) && decoder == old(decoder)
      // anything else
      ensures old(status.state) !in {WaitingAuthReply, WaitingInfoReply, WaitingReplconfReply, WaitingPsyncReply} ==>
                closeRequested && sent == old(sent) && status == old(status) && decoder == old(decoder)
    {
      match status.state
      case WaitingAuthReply =>
        if reply.rtype == ReplyArena.REPLY_ERROR {
          Close();
        }
        InfoMaster();
      case WaitingInfoReply =>
        if reply.rtype == ReplyArena.REPLY_ERROR {
          Close();
          return;
        }
        var isRedis := !Contains(reply.str, COMMS_VERSION_KEY);
        status := status.(serverIsRedis := isRedis);
        if isRedis {
          var v := InfoVersion(reply.str);
          status := status.(serverSupportPsync := SupportsPsync(v));
        } else {
          status := status.(serverSupportPsync := true);
        }
        sent := sent + [ReplconfLine(primaryPort)];
        status := status.(state := WaitingReplconfReply);
      case WaitingReplconfReply =>
        if reply.rtype == ReplyArena.REPLY_ERROR {
          closeRequested := true;
          return;
        }
        if status.serverSupportPsync {
          sent := sent + [PsyncLine(status.serverIsRedis, repl)];
          status := status.(state := WaitingPsyncReply);
        } else {
          sent := sent + [SYNC_LINE];
          status := status.(state := WaitingSnapshot);
          decoder := DumpFileDecoder;
        }
      case WaitingPsyncReply =>
        if reply.rtype != ReplyArena.REPLY_STATUS {
          closeRequested := true;
          return;
        }
        var ss := Split(reply.str, ' ');
        if EqualsIgnoreCase(ss[0], "FULLRESYNC") {
          var offset := ParseInt64(ss[2]);
          if offset.None? {
            closeRequested := true;
            return;
          }
          status := status.(cachedRunId := ss[1], cachedOffset := offset.value);
          if |ss| > 3 {
            var cksm := ParseUInt64(ss[3]);
            if cksm.None? {
              closeRequested := true;
              return;
            }
            status := status.(cachedCksm := cksm.value);
          }
          status := status.(state := WaitingSnapshot);
          decoder := DumpFileDecoder;
        } else if EqualsIgnoreCase(ss[0], "CONTINUE") {
          decoder := CommandDecoder;
          status := status.(state := Synced);
        } else {
          closeRequested := true;
        }
      case _ =>
        Close();
    }

    /**
     * HandleRedisDumpChunk: collect the snapshot; on its last chunk load it
     * and, when the load succeeds, take over the master's identity, offset
     * and checksum, replay what was logged meanwhile and go SYNCED.
     * `during` are the commands the master streams while the file loads,
     * `reloadOk` is the outcome of loading the file and `randomKey` the
     * throw-away server key used while it loads.  A chunk arrives on the
     * connection, so there is one; no replay is running between events, and
     * none is left running.
     */
    method HandleRedisDumpChunk(chunk: Chunk, during: seq<Bytes>, reloadOk: bool, randomKey: string, now: uint32)
      requires hasClient && Valid()
      requires forall i :: 0 <= i < |during| ==> IsFrame(during[i])
      modifies this`snapshot, this`snapshotOpen, this`decoder, this`status, this`repl, this`store
      modifies this`cmdRecvedTime, this`closeRequested, this`snapshotOffset, this`snapshotCksm
      modifies this`downstreamDisconnects, this`replayCacheClears
      ensures Valid()
      ensures old(status.state) != WaitingSnapshot ==>
                closeRequested && status == old(status) && repl == old(repl) && store == old(store) &&
                snapshot == old(snapshot) && decoder == old(decoder)
      ensures old(status.state) == WaitingSnapshot ==>
                snapshot == (if chunk.first then [] else old(snapshot)) + chunk.data
      ensures old(status.state) == WaitingSnapshot && !chunk.last ==>
                status == old(status) && repl == old(repl) && store == old(store) &&
                closeRequested == old(closeRequested) && snapshotOpen == (chunk.first || old(snapshotOpen))
      ensures old(status.state) == WaitingSnapshot && chunk.last ==>
                SnapshotLoaded(old(status), old(repl), old(store), old(closeRequested), old(downstreamDisconnects),
                               old(replayCacheClears), during, reloadOk, randomKey, now)
    {
      if status.state != WaitingSnapshot {
        closeRequested := true;
        return;
      }
      CollectChunk(chunk);
      if chunk.last {
        LoadSnapshot(during, reloadOk, randomKey, now);
      }
    }

    /** The first chunk starts a new snapshot file; every chunk's data is appended to it. */
    method CollectChunk(chunk: Chunk)
      modifies this`snapshot, this`snapshotOpen
      ensures snapshot == (if chunk.first then [] else old(snapshot)) + chunk.data
      ensures snapshotOpen == (chunk.first || old(snapshotOpen))
    {
      if chunk.first {
        snapshot := [];
        snapshotOpen := true;
      }
      if chunk.data != [] {
        snapshot := snapshot + chunk.data;
      } else {
        assert snapshot + chunk.data == snapshot;
      }
    }

    /**
     * The state after the last chunk: the command decoder is on and, while
     * the file loads, the log restarts at the master's offset under a random
     * server key, after the store was flushed when so configured; the
     * commands of `during` are logged there.  A failed load closes the link
     * in LOADING_SNAPSHOT.  A successful one loads the snapshot, adopts the
     * master's run id, offset and checksum, replays the commands logged
     * meanwhile, and goes SYNCED with a continuous, caught-up history.
     */
    ghost predicate SnapshotLoaded(status0: Status, repl0: Backlog, store0: seq<StoreOp>, closeRequested0: bool,
                                   disconnects0: nat, cacheClears0: nat, during: seq<Bytes>, reloadOk: bool,
                                   randomKey: string, now: uint32)
      reads this
    {
      decoder == CommandDecoder && cmdRecvedTime == now &&
      if !reloadOk then
        LoadFailed(status0, closeRequested0, cacheClears0, Flushed(store0), LoggedFrom(repl0, status0, randomKey, during))
      else
        LoadSucceeded(status0, closeRequested0, disconnects0, cacheClears0, Flushed(store0),
                      LoggedFrom(repl0, status0, randomKey, during), during)
    }

    /** The store once flushed before a full resync, when so configured. */
    function Flushed(store0: seq<StoreOp>): seq<StoreOp> {
      store0 + (if clearDbBeforeFullresync then [FlushAll] else [])
    }

    /** A failed load: the link is closed in LOADING_SNAPSHOT, with the commands received meanwhile logged. */
    ghost predicate LoadFailed(status0: Status, closeRequested0: bool, cacheClears0: nat, flushed: seq<StoreOp>,
                               logged: Backlog)
      reads this
    {
      closeRequested == (closeRequested0 || hasClient) && status == status0.(state := LoadingSnapshot) &&
      repl == logged && store == flushed && replayCacheClears == cacheClears0
    }

    /**
     * A successful load: SYNCED under the master's run id, the snapshot in
     * the store followed by every command received meanwhile, in order, and
     * the whole log applied (a continuous, caught-up history, by
     * ResyncCatchesUp).
     */
    ghost predicate LoadSucceeded(status0: Status, closeRequested0: bool, disconnects0: nat, cacheClears0: nat,
                                  flushed: seq<StoreOp>, logged: Backlog, during: seq<Bytes>)
      reads this
    {
      closeRequested == closeRequested0 && status == status0.(state := Synced) &&
      repl == Adopted(logged, status0.cachedRunId) &&
      store == flushed + [Load(snapshot)] + Execs(during) &&
      snapshotOffset == status0.cachedOffset && snapshotCksm == status0.cachedCksm && !snapshotOpen &&
      downstreamDisconnects == disconnects0 + 1 &&
      replayCacheClears == cacheClears0 + (if during == [] then 1 else 0)
    }

    method LoadSnapshot(during: seq<Bytes>, reloadOk: bool, randomKey: string, now: uint32)
      requires !status.replayingWal
      requires forall i :: 0 <= i < |during| ==> IsFrame(during[i])
      modifies this`decoder, this`status, this`repl, this`store, this`cmdRecvedTime, this`closeRequested
      modifies this`snapshotOffset, this`snapshotCksm, this`snapshotOpen, this`downstreamDisconnects,
               this`replayCacheClears
      ensures SnapshotLoaded(old(status), old(repl), old(store), old(closeRequested), old(downstreamDisconnects),
                             old(replayCacheClears), during, reloadOk, randomKey, now)
    {
      ghost var status0, store0, clears0 := status, store, replayCacheClears;
      ghost var flushed := Flushed(store0);
      ghost var logged := LoggedFrom(repl, status0, randomKey, during);
      LoggedWhileLoading(repl, status0, randomKey, during);
      StartLoading(randomKey, during, now);
      if !reloadOk {
        if hasClient {
          closeRequested := true;
        }
        assert LoadFailed(status0, old(closeRequested), clears0, flushed, logged);
        return;
      }
      AdoptMaster(during);
      assert LoadSucceeded(status0, old(closeRequested), old(downstreamDisconnects), clears0, flushed, logged, during);
    }

    /**
     * While the file loads: command decoder, LOADING_SNAPSHOT, a fresh log at
     * the master's offset under a random key, the flush; then the commands
     * that arrive meanwhile are logged.
     */
    method StartLoading(randomKey: string, during: seq<Bytes>, now: uint32)
      requires forall i :: 0 <= i < |during| ==> IsFrame(during[i])
      modifies this`decoder, this`status, this`repl, this`store, this`cmdRecvedTime, this`replayCacheClears
      ensures decoder == CommandDecoder && cmdRecvedTime == now && replayCacheClears == old(replayCacheClears)
      ensures status == old(status).(state := LoadingSnapshot)
      ensures repl == LoggedFrom(old(repl), old(status), randomKey, during)
      ensures store == old(store) + (if clearDbBeforeFullresync then [FlushAll] else [])
    {
      decoder := CommandDecoder;
      status := status.(state := LoadingSnapshot);
      repl := repl.(serverKey := randomKey);
      repl := ResetWal(repl, status.cachedOffset, status.cachedCksm);
      if clearDbBeforeFullresync {
        store := store + [FlushAll];
      }
      cmdRecvedTime := now;
      ReceiveWhileLoading(during, now);
    }

    /**
     * The commands that arrive while the file loads go through
     * HandleRedisCommand one at a time; outside SYNCED it only logs them.
     */
    method ReceiveWhileLoading(during: seq<Bytes>, now: uint32)
      requires status.state == LoadingSnapshot
      requires forall i :: 0 <= i < |during| ==> IsFrame(during[i])
      modifies this`cmdRecvedTime, this`store, this`repl, this`status, this`replayCacheClears
      ensures repl == WriteWal(old(repl), Flatten(during))
      ensures store == old(store) && status == old(status) && replayCacheClears == old(replayCacheClears)
      ensures cmdRecvedTime == if during == [] then old(cmdRecvedTime) else now
    {
      for i := 0 to |during|
        invariant repl == WriteWal(old(repl), Flatten(during[..i]))
        invariant store == old(store) && status == old(status) && replayCacheClears == old(replayCacheClears)
        invariant cmdRecvedTime == if i == 0 then old(cmdRecvedTime) else now
      {
        LoggedStep(old(repl), during, i);
        HandleRedisCommand(during[i], now);
      }
      assert during[..|during|] == during;
    }

    /**
     * After a successful load: the snapshot is in the store, the data offset
     * and checksum are set to the start of the log, and the replica is
     * SYNCED; the replay that follows applies every command logged while the
     * file loaded, so the history ends continuous and caught up.
     */
    method AdoptMaster(ghost during: seq<Bytes>)
      requires status.state == LoadingSnapshot && !status.replayingWal
      requires LogOf(repl, status.cachedOffset, status.cachedCksm, during)
      requires forall i :: 0 <= i < |during| ==> IsFrame(during[i])
      modifies this`status, this`repl, this`store, this`snapshotOffset, this`snapshotCksm, this`snapshotOpen
      modifies this`downstreamDisconnects, this`replayCacheClears
      ensures status == old(status).(state := Synced)
      ensures repl == Adopted(old(repl), status.cachedRunId)
      ensures store == old(store) + [Load(snapshot)] + Execs(during)
      ensures snapshotOffset == status.cachedOffset && snapshotCksm == status.cachedCksm && !snapshotOpen
      ensures downstreamDisconnects == old(downstreamDisconnects) + 1
      ensures replayCacheClears == old(replayCacheClears) + (if during == [] then 1 else 0)
    {
      AdoptCatchesUp(repl, status.cachedOffset, status.cachedCksm, status.cachedRunId, during);
      store := store + [Load(snapshot)];
      repl := ResetData(repl.(serverKey := status.cachedRunId), status.cachedOffset, status.cachedCksm);
      snapshotOffset := status.cachedOffset;
      snapshotCksm := status.cachedCksm;
      snapshotOpen := false;
      status := status.(state := Synced);
      downstreamDisconnects := downstreamDisconnects + 1;
      ReplayWal();
    }
  }
}
