/**
 * The server configuration (src/config.cpp): the consistency check run at
 * the end of CommsConfig::Parse, and the blocks of Parse that decode
 * options from the property map into the configuration's fields.
 *
 * Parse's filesystem work (creating and resolving the home, data and
 * replication directories, exporting COMMS_HOME) is not modelled: the
 * property map it reads from is the one `${VAR}` substitution leaves, with
 * the environment passed in.
 */
module Config {
  import opened Wrappers
  import opened Strings
  import opened ConfigHelper

  type uint32 = x: int | 0 <= x < UINT32_LIMIT

  const AUTHPASS_MAX_LEN := 512
  const MAXDB_LIMIT := 0xFFFFFF
  const DEFAULT_LISTEN := "0.0.0.0:16379"

  // Constructor defaults of CommsConfig (src/config.hpp).
  const DEFAULT_REPL_TIMEOUT := 60
  const DEFAULT_REPLY_POOL_SIZE := 5000
  const DEFAULT_MAXDB := 16
  const DEFAULT_REPL_WAL_SIZE := 1024 * 1024 * 1024

  // ---------------------------------------------------------------------
  // verify_config
  // ---------------------------------------------------------------------

  /**
   * verify_config: reject a replica whose backlog size is not positive, a
   * password longer than 512 bytes and more than 0xFFFFFF databases.
   */
  function VerifyConfig(masterHost: string, replWalSize: int, requirepass: string, maxdb: int): (ok: bool)
    ensures ok <==> !((masterHost != [] && replWalSize <= 0) || |requirepass| > AUTHPASS_MAX_LEN || maxdb > MAXDB_LIMIT)
  {
    if masterHost != [] && replWalSize <= 0 then false
    else if |requirepass| > AUTHPASS_MAX_LEN then false
    else if maxdb > MAXDB_LIMIT then false
    else true
  }

  /** The constructor defaults pass the check, whatever master is configured. */
  lemma DefaultsVerify(masterHost: string)
    ensures VerifyConfig(masterHost, DEFAULT_REPL_WAL_SIZE, "", DEFAULT_MAXDB)
  {
  }

  // ---------------------------------------------------------------------
  // listen, thread-pool-size, qps-limit
  // ---------------------------------------------------------------------

  /** The values of the single-valued occurrences, in order; the others are skipped. */
  function SingleValues(cs: ConfItemsArray): (r: seq<string>)
    ensures |r| <= |cs|
  {
    if cs == [] then []
    else SingleValues(cs[..|cs| - 1]) + (if |cs[|cs| - 1]| == 1 then [cs[|cs| - 1][0]] else [])
  }

  /** Every kept value is the one value of some occurrence. */
  lemma {:induction false} SingleValuesFrom(cs: ConfItemsArray)
    ensures forall a :: a in SingleValues(cs) ==> exists i :: 0 <= i < |cs| && cs[i] == [a]
  {
    if cs != [] {
      var init := cs[..|cs| - 1];
      SingleValuesFrom(init);
      forall a | a in SingleValues(cs) ensures exists i :: 0 <= i < |cs| && cs[i] == [a] {
        if a in SingleValues(init) {
          var i :| 0 <= i < |init| && init[i] == [a];
          assert cs[i] == init[i];
        } else {
          assert cs[|cs| - 1] == [a];
        }
      }
    }
  }

  /** When every occurrence is single-valued, all of them are kept, in order. */
  lemma {:induction false} SingleValuesAll(cs: ConfItemsArray)
    requires forall i :: 0 <= i < |cs| ==> |cs[i]| == 1
    ensures |SingleValues(cs)| == |cs|
    ensures forall i :: 0 <= i < |cs| ==> SingleValues(cs)[i] == cs[i][0]
  {
    if cs != [] {
      SingleValuesAll(cs[..|cs| - 1]);
    }
  }

  /** The uint32 values of the single-valued occurrences that parse, in order. */
  function Uint32Values(cs: ConfItemsArray): (r: seq<int>)
    ensures |r| <= |cs|
    ensures forall i :: 0 <= i < |r| ==> 0 <= r[i] < UINT32_LIMIT
  {
    if cs == [] then []
    else
      var last := cs[|cs| - 1];
      Uint32Values(cs[..|cs| - 1]) +
        (if |last| == 1 && ParseUInt32(last[0]).Some? then [ParseUInt32(last[0]).value] else [])
  }

  /** Occurrences that are decimal numbers below 2^32 are all kept, with their values. */
  lemma {:induction false} Uint32ValuesAll(cs: ConfItemsArray)
    requires forall i :: 0 <= i < |cs| ==> |cs[i]| == 1 && ParseUInt32(cs[i][0]).Some?
    ensures |Uint32Values(cs)| == |cs|
    ensures forall i :: 0 <= i < |cs| ==> Uint32Values(cs)[i] == ParseUInt32(cs[i][0]).value
  {
    if cs != [] {
      Uint32ValuesAll(cs[..|cs| - 1]);
    }
  }

  /** std::vector::resize: cut to `n`, or pad with zeros up to `n`. */
  function Resized(xs: seq<int>, n: nat): (r: seq<int>)
    ensures |r| == n
    ensures forall i :: 0 <= i < n && i < |xs| ==> r[i] == xs[i]
    ensures forall i :: |xs| <= i < n ==> r[i] == 0
  {
    if n <= |xs| then xs[..n] else xs + seq(n - |xs|, _ => 0)
  }

  /** The listen loop: the single-valued entries are appended to `prev`. */
  method AppendSingleValues(prev: seq<string>, cs: ConfItemsArray) returns (r: seq<string>)
    ensures r == prev + SingleValues(cs)
  {
    r := prev;
    for i := 0 to |cs|
      invariant r == prev + SingleValues(cs[..i])
    {
      assert cs[..i + 1][..i] == cs[..i];
      if |cs[i]| == 1 {
        r := r + [cs[i][0]];
      }
    }
    assert cs[..|cs|] == cs;
  }

  /** The thread-pool-size and qps-limit loops: the valid uint32 entries are appended to `prev`. */
  method AppendUint32Values(prev: seq<int>, cs: ConfItemsArray) returns (r: seq<int>)
    ensures r == prev + Uint32Values(cs)
  {
    r := prev;
    for i := 0 to |cs|
      invariant r == prev + Uint32Values(cs[..i])
    {
      assert cs[..i + 1][..i] == cs[..i];
      if |cs[i]| == 1 {
        var v := ParseUInt32(cs[i][0]);
        if v.Some? {
          r := r + [v.value];
        }
      }
    }
    assert cs[..|cs|] == cs;
  }

  // ---------------------------------------------------------------------
  // slaveof
  // ---------------------------------------------------------------------

  /**
   * What "slaveof" does to the master host and port: nothing unless the text
   * splits into exactly two ':'-separated parts; then the host is the first
   * part, and the port the second when it is a uint32, otherwise the host is
   * cleared and the port left as it was.
   */
  function Slaveof(text: string, host: string, port: uint32): (r: (string, uint32))
    ensures |Split(text, ':')| != 2 ==> r == (host, port)
  {
    var ss := Split(text, ':');
    if |ss| != 2 then (host, port)
    else match ParseUInt32(ss[1])
      case Some(p) => (ss[0], p)
      case None => ("", port)
  }

  /** "host:port" sets exactly that host and port. */
  lemma SlaveofHostPort(host: string, port: uint32, oldHost: string, oldPort: uint32)
    requires ':' !in host
    ensures Slaveof(host + ":" + NatToString(port), oldHost, oldPort) == (host, port)
  {
    var ps := [host, NatToString(port)];
    assert ':' !in NatToString(port) by {
      var d := NatToString(port);
      forall i | 0 <= i < |d| ensures d[i] != ':' {
        assert IsDigit(d[i]);
      }
    }
    assert Join(ps, ':') == host + ":" + NatToString(port);
    SplitJoin(ps, ':');
    ParseNatToString(port);
  }

  /** A port that is not a number clears the host. */
  lemma SlaveofBadPort(host: string, port: string, oldHost: string, oldPort: uint32)
    requires ':' !in host && ':' !in port && ParseUInt32(port).None?
    ensures Slaveof(host + ":" + port, oldHost, oldPort) == ("", oldPort)
  {
    var ps := [host, port];
    assert Join(ps, ':') == host + ":" + port;
    SplitJoin(ps, ':');
  }

  // ---------------------------------------------------------------------
  // rename-command
  // ---------------------------------------------------------------------

  /**
   * The renames accepted from the occurrences, in order, with the set of new
   * names taken so far: an occurrence is accepted when it has exactly two
   * values and its new name is not taken yet.
   */
  function Renames(cs: ConfItemsArray): (map<string, string>, set<string>) {
    if cs == [] then (map[], {})
    else
      var (m, taken) := Renames(cs[..|cs| - 1]);
      var e := cs[|cs| - 1];
      if |e| != 2 || e[1] in taken then (m, taken) else (m[e[0] := e[1]], taken + {e[1]})
  }

  /**
   * What the rename loop keeps true of its map and its set of taken names:
   * every rename comes from a two-valued occurrence, every new name is
   * taken, no two commands share a new name, and only occurring names are
   * taken.
   */
  ghost predicate RenameTable(cs: ConfItemsArray, m: map<string, string>, taken: set<string>) {
    (forall a :: a in m ==> [a, m[a]] in cs && m[a] in taken) &&
    (forall a, b :: a in m && b in m && a != b ==> m[a] != m[b]) &&
    (forall t :: t in taken ==> exists e :: e in cs && |e| == 2 && e[1] == t)
  }

  /** No two commands are renamed to the same name, and every rename is one of the occurrences. */
  lemma {:induction false} RenamesDistinct(cs: ConfItemsArray)
    ensures RenameTable(cs, Renames(cs).0, Renames(cs).1)
  {
    if cs != [] {
      var init := cs[..|cs| - 1];
      RenamesDistinct(init);
      var m0 := Renames(init).0;
      var t0 := Renames(init).1;
      var e := cs[|cs| - 1];
      assert cs == init + [e];
      forall x | x in init ensures x in cs { }
      if |e| == 2 && e[1] !in t0 {
        assert Renames(cs) == (m0[e[0] := e[1]], t0 + {e[1]});
        assert e == [e[0], e[1]] && e in cs;
        forall t | t in t0 + {e[1]} ensures exists x :: x in cs && |x| == 2 && x[1] == t {
          if t != e[1] {
            var x :| x in init && |x| == 2 && x[1] == t;
            assert x in cs;
          }
        }
      } else {
        assert Renames(cs) == (m0, t0);
      }
    }
  }

  /** Occurrences that are all two-valued with distinct new names are all accepted. */
  lemma {:induction false} RenamesAllDistinct(cs: ConfItemsArray)
    requires forall i :: 0 <= i < |cs| ==> |cs[i]| == 2
    requires forall i, j :: 0 <= i < j < |cs| ==> cs[i][1] != cs[j][1]
    ensures forall i :: 0 <= i < |cs| ==> cs[i][0] in Renames(cs).0 && cs[i][1] in Renames(cs).1
  {
    if cs != [] {
      var init := cs[..|cs| - 1];
      RenamesAllDistinct(init);
      RenamesDistinct(init);
      var e := cs[|cs| - 1];
      assert e[1] !in Renames(init).1;
      forall i | 0 <= i < |cs| ensures cs[i][0] in Renames(cs).0 && cs[i][1] in Renames(cs).1 {
        if i < |init| {
          assert init[i] == cs[i];
        }
      }
    }
  }

  // ---------------------------------------------------------------------
  // The configuration
  // ---------------------------------------------------------------------

  // ---------------------------------------------------------------------
  // What CommsConfig::Parse decodes
  // ---------------------------------------------------------------------

  /** The listener fields: addresses, and one thread pool size and QPS limit per address. */
  datatype Listeners = Listeners(addresses: seq<string>, threadPoolSizes: seq<int>, qpsLimits: seq<int>)

  /**
   * The listen, thread-pool-size and qps-limit blocks: the single-valued
   * listen entries are added to the addresses (the default address when
   * there are none at all), the valid sizes and limits are added to theirs,
   * and both are then resized to the number of addresses.
   */
  function DecodeListeners(p: Properties, l: Listeners): (r: Listeners)
    ensures r.addresses != [] && |r.threadPoolSizes| == |r.qpsLimits| == |r.addresses|
    ensures l.addresses + SingleValues(Items(p, "listen")) != [] ==>
              r.addresses == l.addresses + SingleValues(Items(p, "listen"))
    ensures l.addresses + SingleValues(Items(p, "listen")) == [] ==> r.addresses == [DEFAULT_LISTEN]
  {
    var all := l.addresses + SingleValues(Items(p, "listen"));
    var addresses := if all == [] then [DEFAULT_LISTEN] else all;
    Listeners(addresses,
              Resized(l.threadPoolSizes + Uint32Values(Items(p, "thread-pool-size")), |addresses|),
              Resized(l.qpsLimits + Uint32Values(Items(p, "qps-limit")), |addresses|))
  }

  /** The single-valued settings CommsConfig::Parse decodes. */
  datatype Settings = Settings(
    backupRedisFormat: bool,
    replWalSize: int,
    replTimeout: int,
    slaveCleardbBeforeFullresync: bool,
    masterHost: string,
    masterPort: uint32,
    requirepass: string,
    renameCommands: map<string, string>,
    replyPoolSize: int,
    maxdb: int)

  /**
   * The single-valued option blocks: each option present in `p` sets its
   * setting as its block decodes it; an absent one keeps the setting.
   */
  function DecodeSettings(p: Properties, s: Settings): (r: Settings)
    requires WellFormed(p)
  {
    var master := if HasItems(p, "slaveof") then Slaveof(p["slaveof"][0][0], s.masterHost, s.masterPort)
                  else (s.masterHost, s.masterPort);
    Settings(
      s.backupRedisFormat || (HasItems(p, "backup-file-format") && EqualsIgnoreCase(p["backup-file-format"][0][0], "redis")),
      ConfGetInt64AsWritten(p, "repl-backlog-size", s.replWalSize, true).value,
      ConfGetInt64AsWritten(p, "repl-timeout", s.replTimeout, true).value,
      ConfGetBool(p, "slave-clecomms-before-fullresync", s.slaveCleardbBeforeFullresync, true).value,
      master.0,
      master.1,
      ConfGetString(p, "requirepass", s.requirepass, true).value,
      if "rename-command" in p then Renames(p["rename-command"]).0 else s.renameCommands,
      ConfGetInt64AsWritten(p, "reply-pool-size", s.replyPoolSize, true).value,
      ConfGetInt64AsWritten(p, "databases", s.maxdb, true).value)
  }

  /** Options the properties do not mention leave every setting as it was. */
  lemma DecodeSettingsAbsent(p: Properties, s: Settings)
    requires WellFormed(p)
    requires forall k :: k in p ==> k !in SETTING_KEYS
    ensures DecodeSettings(p, s) == s
  {
    assert "slaveof" !in p && "rename-command" !in p && "backup-file-format" !in p;
  }

  const SETTING_KEYS := {"backup-file-format", "repl-backlog-size", "repl-timeout",
                         "slave-clecomms-before-fullresync", "slaveof", "requirepass", "rename-command",
                         "reply-pool-size", "databases"}

  /** "slaveof host:port" with a numeric port sets exactly that master, whatever else is set. */
  lemma DecodeSlaveof(p: Properties, s: Settings, host: string, port: uint32)
    requires WellFormed(p) && ':' !in host
    requires "slaveof" in p && |p["slaveof"]| > 0 && p["slaveof"][0][0] == host + ":" + NatToString(port)
    ensures DecodeSettings(p, s).masterHost == host && DecodeSettings(p, s).masterPort == port
  {
    SlaveofHostPort(host, port, s.masterHost, s.masterPort);
  }

  /**
   * The test defaults added to conf_props: maxmemory and dbfilename, each
   * only when absent; everything else is kept.
   */
  function WithTestDefaults(m: Properties): (r: Properties)
    ensures r.Keys == m.Keys + {"maxmemory", "dbfilename"}
    ensures forall k :: k in m ==> r[k] == m[k]
    ensures "maxmemory" !in m ==> r["maxmemory"] == [["100000"]]
    ensures "dbfilename" !in m ==> r["dbfilename"] == [["testfile"]]
  {
    var m1 := if "maxmemory" !in m then ConfSet(m, "maxmemory", "100000", true) else m;
    if "dbfilename" !in m1 then ConfSet(m1, "dbfilename", "testfile", true) else m1
  }

  class CommsConfig {
    var listenAddresses: seq<string>
    var threadPoolSizes: seq<int>
    var qpsLimits: seq<int>
    var backupRedisFormat: bool
    var replWalSize: int
    var replTimeout: int
    var slaveCleardbBeforeFullresync: bool
    var masterHost: string
    var masterPort: uint32
    var requirepass: string
    var renameCommands: map<string, string>
    var replyPoolSize: int
    var maxdb: int
    var confProps: Properties

    constructor()
      ensures listenAddresses == [] && threadPoolSizes == [] && qpsLimits == []
      ensures !backupRedisFormat && replWalSize == DEFAULT_REPL_WAL_SIZE && replTimeout == DEFAULT_REPL_TIMEOUT
      ensures slaveCleardbBeforeFullresync && masterHost == [] && masterPort == 0 && requirepass == []
      ensures renameCommands == map[] && replyPoolSize == DEFAULT_REPLY_POOL_SIZE && maxdb == DEFAULT_MAXDB
      ensures confProps == map[]
    {
      listenAddresses := [];
      threadPoolSizes := [];
      qpsLimits := [];
      backupRedisFormat := false;
      replWalSize := DEFAULT_REPL_WAL_SIZE;
      replTimeout := DEFAULT_REPL_TIMEOUT;
      slaveCleardbBeforeFullresync := true;
      masterHost := [];
      masterPort := 0;
      requirepass := [];
      renameCommands := map[];
      replyPoolSize := DEFAULT_REPLY_POOL_SIZE;
      maxdb := DEFAULT_MAXDB;
      confProps := map[];
    }

    /** verify_config(*this) */
    predicate Verified()
      reads this
    {
      VerifyConfig(masterHost, replWalSize, requirepass, maxdb)
    }

    function CurrentListeners(): Listeners
      reads this`listenAddresses, this`threadPoolSizes, this`qpsLimits
    {
      Listeners(listenAddresses, threadPoolSizes, qpsLimits)
    }

    function CurrentSettings(): Settings
      reads this`backupRedisFormat, this`replWalSize, this`replTimeout, this`slaveCleardbBeforeFullresync,
            this`masterHost, this`masterPort, this`requirepass, this`renameCommands, this`replyPoolSize, this`maxdb
    {
      Settings(backupRedisFormat, replWalSize, replTimeout, slaveCleardbBeforeFullresync, masterHost, masterPort,
               requirepass, renameCommands, replyPoolSize, maxdb)
    }

    /** The listen block: single-valued entries are listeners; with none, the default address. */
    method ParseListen(props: Properties)
      modifies this`listenAddresses
      ensures var all := old(listenAddresses) + SingleValues(Items(props, "listen"));
        listenAddresses == if all == [] then [DEFAULT_LISTEN] else all
      ensures listenAddresses != []
    {
      if "listen" in props {
        listenAddresses := AppendSingleValues(listenAddresses, props["listen"]);
      } else {
        assert SingleValues([]) == [];
        assert listenAddresses + [] == listenAddresses;
      }
      if listenAddresses == [] {
        listenAddresses := listenAddresses + [DEFAULT_LISTEN];
      }
    }

    /**
     * The thread-pool-size and qps-limit blocks: valid entries are collected
     * and both arrays are then resized to the number of listeners.
     */
    method ParsePerListener(props: Properties)
      modifies this`threadPoolSizes, this`qpsLimits
      ensures threadPoolSizes == Resized(old(threadPoolSizes) + Uint32Values(Items(props, "thread-pool-size")), |listenAddresses|)
      ensures qpsLimits == Resized(old(qpsLimits) + Uint32Values(Items(props, "qps-limit")), |listenAddresses|)
      ensures |threadPoolSizes| == |qpsLimits| == |listenAddresses|
    {
      var sizes := AppendUint32Values(threadPoolSizes, Items(props, "thread-pool-size"));
      var limits := AppendUint32Values(qpsLimits, Items(props, "qps-limit"));
      threadPoolSizes := Resized(sizes, |listenAddresses|);
      qpsLimits := Resized(limits, |listenAddresses|);
    }

    /** backup-file-format: "redis", in any case, switches the Redis backup format on; nothing switches it off. */
    method ParseBackupFormat(props: Properties)
      requires Readable(props, "backup-file-format")
      modifies this`backupRedisFormat
      ensures backupRedisFormat ==
                (old(backupRedisFormat) ||
                 (HasItems(props, "backup-file-format") && EqualsIgnoreCase(props["backup-file-format"][0][0], "redis")))
    {
      var format := ConfGetString(props, "backup-file-format", "", true).value;
      if EqualsIgnoreCase(format, "redis") {
        backupRedisFormat := true;
      }
      assert !HasItems(props, "backup-file-format") ==> !EqualsIgnoreCase(format, "redis");
    }

    /** slaveof "host:port". */
    method ParseSlaveof(props: Properties)
      requires Readable(props, "slaveof")
      modifies this`masterHost, this`masterPort
      ensures !HasItems(props, "slaveof") ==> masterHost == old(masterHost) && masterPort == old(masterPort)
      ensures HasItems(props, "slaveof") ==>
                (masterHost, masterPort) == Slaveof(props["slaveof"][0][0], old(masterHost), old(masterPort))
    {
      var got := ConfGetString(props, "slaveof", "", false);
      if got.ok {
        var ss := Split(got.value, ':');
        if |ss| == 2 {
          masterHost := ss[0];
          var port := ParseUInt32(ss[1]);
          if port.Some? {
            masterPort := port.value;
          } else {
            masterHost := "";
          }
        }
      }
    }

    /** rename-command: present, it replaces the renames with the accepted entries. */
    method ParseRenameCommand(props: Properties)
      modifies this`renameCommands
      ensures "rename-command" !in props ==> renameCommands == old(renameCommands)
      ensures "rename-command" in props ==> renameCommands == Renames(props["rename-command"]).0
    {
      if "rename-command" in props {
        var cs := props["rename-command"];
        renameCommands := map[];
        var taken: set<string> := {};
        var i := 0;
        while i < |cs|
          invariant 0 <= i <= |cs|
          invariant (renameCommands, taken) == Renames(cs[..i])
        {
          assert cs[..i + 1][..i] == cs[..i];
          if |cs[i]| != 2 || cs[i][1] in taken {
          } else {
            renameCommands := renameCommands[cs[i][0] := cs[i][1]];
            taken := taken + {cs[i][1]};
          }
          i := i + 1;
        }
        assert cs[..|cs|] == cs;
      }
    }

    /** The defaults added to conf_props for tests: maxmemory and dbfilename, each only when absent. */
    method AddTestDefaults()
      modifies this`confProps
      ensures confProps == WithTestDefaults(old(confProps))
    {
      if "maxmemory" !in confProps {
        confProps := ConfSet(confProps, "maxmemory", "100000", true);
      }
      if "dbfilename" !in confProps {
        confProps := ConfSet(confProps, "dbfilename", "testfile", true);
      }
    }

    /** The listener blocks of CommsConfig::Parse: one thread pool size and one QPS limit per listener. */
    method ParseListeners(p: Properties)
      modifies this`listenAddresses, this`threadPoolSizes, this`qpsLimits
      ensures CurrentListeners() == DecodeListeners(p, old(CurrentListeners()))
    {
      ParseListen(p);
      ParsePerListener(p);
    }

    /** The numeric, boolean and password options, each kept at its current value when absent. */
    method ReadScalars(p: Properties)
      requires WellFormed(p)
      modifies this`replWalSize, this`replTimeout, this`slaveCleardbBeforeFullresync, this`requirepass,
               this`replyPoolSize, this`maxdb
      ensures replWalSize == ConfGetInt64AsWritten(p, "repl-backlog-size", old(replWalSize), true).value
      ensures replTimeout == ConfGetInt64AsWritten(p, "repl-timeout", old(replTimeout), true).value
      ensures slaveCleardbBeforeFullresync ==
                ConfGetBool(p, "slave-clecomms-before-fullresync", old(slaveCleardbBeforeFullresync), true).value
      ensures requirepass == ConfGetString(p, "requirepass", old(requirepass), true).value
      ensures replyPoolSize == ConfGetInt64AsWritten(p, "reply-pool-size", old(replyPoolSize), true).value
      ensures maxdb == ConfGetInt64AsWritten(p, "databases", old(maxdb), true).value
    {
      replWalSize := ConfGetInt64AsWritten(p, "repl-backlog-size", replWalSize, true).value;
      replTimeout := ConfGetInt64AsWritten(p, "repl-timeout", replTimeout, true).value;
      slaveCleardbBeforeFullresync :=
        ConfGetBool(p, "slave-clecomms-before-fullresync", slaveCleardbBeforeFullresync, true).value;
      requirepass := ConfGetString(p, "requirepass", requirepass, true).value;
      replyPoolSize := ConfGetInt64AsWritten(p, "reply-pool-size", replyPoolSize, true).value;
      maxdb := ConfGetInt64AsWritten(p, "databases", maxdb, true).value;
    }

    /** The single-valued option blocks of CommsConfig::Parse. */
    method ParseSettings(p: Properties)
      requires WellFormed(p)
      modifies this`backupRedisFormat, this`replWalSize, this`replTimeout, this`slaveCleardbBeforeFullresync,
               this`masterHost, this`masterPort, this`requirepass, this`renameCommands, this`replyPoolSize,
               this`maxdb
      ensures CurrentSettings() == DecodeSettings(p, old(CurrentSettings()))
    {
      ghost var d := DecodeSettings(p, CurrentSettings());
      ParseBackupFormat(p);
      ParseSlaveof(p);
      ParseRenameCommand(p);
      ReadScalars(p);
      assert backupRedisFormat == d.backupRedisFormat;
      assert masterHost == d.masterHost && masterPort == d.masterPort;
      assert renameCommands == d.renameCommands;
      assert replWalSize == d.replWalSize && replTimeout == d.replTimeout && requirepass == d.requirepass;
      assert slaveCleardbBeforeFullresync == d.slaveCleardbBeforeFullresync;
      assert replyPoolSize == d.replyPoolSize && maxdb == d.maxdb;
    }

    /** The option blocks of CommsConfig::Parse, on the substituted properties. */
    method ParseOptions(p: Properties)
      requires WellFormed(p)
      modifies this`listenAddresses, this`threadPoolSizes, this`qpsLimits,
               this`backupRedisFormat, this`replWalSize, this`replTimeout, this`slaveCleardbBeforeFullresync,
               this`masterHost, this`masterPort, this`requirepass, this`renameCommands, this`replyPoolSize,
               this`maxdb
      ensures CurrentListeners() == DecodeListeners(p, old(CurrentListeners()))
      ensures CurrentSettings() == DecodeSettings(p, old(CurrentSettings()))
    {
      ParseListeners(p);
      ParseSettings(p);
    }

    /**
     * CommsConfig::Parse without its filesystem steps: keep the properties as
     * given, substitute `${VAR}` in them, decode the options, check the
     * result and add the test defaults.
     */
    method Parse(props: Properties, env: map<string, string>, fuel: nat) returns (ok: bool)
      requires WellFormed(props)
      modifies this
      ensures CurrentListeners() == DecodeListeners(ReplaceEnvVar(props, env, fuel), old(CurrentListeners()))
      ensures CurrentSettings() == DecodeSettings(ReplaceEnvVar(props, env, fuel), old(CurrentSettings()))
      ensures ok == Verified()
      ensures confProps == if ok then WithTestDefaults(props) else props
    {
      var p := ReplaceEnvVar(props, env, fuel);
      assert WellFormed(p);
      ParseOptions(p);
      confProps := props;
      if !Verified() {
        return false;
      }
      AddTestDefaults();
      ok := true;
    }
  }
}
