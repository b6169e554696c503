# comms: replication replica, configuration and connection commands in Dafny

This project models the core of comms, a Redis-protocol key-value server.

**Replica (`slave.dfy`, `wal.dfy`).** This is the replica side of master/slave replication.
- The `Slave` class connects to the master and runs the handshake: AUTH, INFO, REPLCONF, then PSYNC or SYNC.
- It collects and loads the snapshot the master streams after a full resync.
- From then on it logs every command the master forwards to its write-ahead log (WAL).
- It applies a command to the store at once only when the store has applied everything before it. Otherwise it replays the log from the applied ("data") offset.
- The log, the store, the network and the snapshot file are the replica's collaborators. They are kept as plain state next to it:
  - a `Backlog` value: log bytes, start offset, log checksum, data offset and checksum, server key;
  - a log of store operations;
  - a log of lines sent, plus a close-requested flag;
  - the snapshot bytes.
- `wal.dfy` states how a buffer splits into whole commands, and the rolling checksum kept next to every offset.
- The central property is `ReceiveInSync`, together with `ReplayCatchesUp` and `ReplayCommands`. A continuous history stays continuous. Every command is executed once, in log order. The data offset and checksum advance by exactly the raw bytes of the commands applied, and end equal to the log's.

**Reply arena (`redis_reply.dfy`).** This models `RedisReplyPool` and `RedisReply`.
- A pool keeps a pre-sized table of reusable replies and an overflow list, with a cursor over both.
- An array reply takes its children from the pool.
- The contracts state that a reply handed out was not handed out before and is not one the pool will hand out again before its next `Clear`. Children are added last or first. Reserved children are NIL.

**Configuration (`config_helper.dfy`, `config.dfy`).**
- `config_helper.dfy` covers:
  - the property-map helpers: `conf_get_*`, `conf_set`, `conf_del`;
  - `${VAR}` substitution;
  - the line logic of the plain and INI configuration readers.
- `config.dfy` covers `verify_config` and the option blocks of `CommsConfig::Parse` that decode into the configuration's fields:
  - listeners, thread pool sizes, QPS limits;
  - backup format, slaveof, rename-command;
  - the numeric options, and the test defaults added to `conf_props`.

**Connection commands (`connection.dfy`).** These are QUIT, PING, ECHO, SELECT and AUTH, working on a client `Context`.

**Shared modules.**
- `strings.dfy` holds decimal, ASCII-only readings of the string helpers the core calls: `find`, `strcasecmp`, `trim_str`, `split_string`, `split_str`, `string_toint64`, `string_touint32` and `atoll`.
- `wrappers.dfy` holds `Option`.

`Replication.Slave.IsSynced` (src/replication/slave.cpp:480-483) is modelled as a predicate. It has no contract beyond its definition.

## Model

| member | source | states |
|---|---|---|
| Replication.WriteWal | src/replication/slave.cpp:150 | logging a command moves the log end on by its length and leaves the data offset alone |
| Replication.WriteWalAppend | src/replication/slave.cpp:150 | logging two pieces one after the other leaves the same backlog as logging them joined |
| Replication.AdvanceAppend | src/replication/slave.cpp:114-121 | applying two stretches of bytes one after the other leaves the same backlog as applying them joined |
| Replication.ResetWal | src/replication/slave.cpp:395 | the log restarts, empty, at the given offset and checksum; the data offset is untouched |
| Replication.ResetDataContinuous | src/replication/slave.cpp:413 | setting the data offset and checksum to the start of a log of whole commands and its start checksum gives a continuous history in which the whole log is unapplied |
| Replication.WriteWalContinuous | src/replication/slave.cpp:150 | logging a whole command keeps the history continuous, and the command joins the unapplied part |
| Replication.ReplayCatchesUp | src/replication/slave.cpp:85-124 | in SYNCED, a replay of a continuous backlog executes every unapplied command in log order and leaves the data offset at the log end, with the data checksum equal to the log's |
| Replication.ReplayWhenCaughtUp | src/replication/slave.cpp:92-96 | with nothing pending, a replay in SYNCED only clears the replay cache |
| Replication.ReplayOnlyWhenSynced | src/replication/slave.cpp:87-100 | a replay changes nothing outside SYNCED, or while another replay is running |
| Replication.ReceiveInSync | src/replication/slave.cpp:142-162 | in SYNCED, a received command is logged, and afterwards the store has executed every previously unapplied command and then this one, caught up with a still-continuous log |
| Replication.ReceiveCaughtUp | src/replication/slave.cpp:153-159 | when the command is the only unapplied part, it is executed at once and the offset advances by its length |
| Replication.ReceiveBehind | src/replication/slave.cpp:153-161 | when the store is behind, the command is logged after the rest and the replay runs it last |
| Replication.ReceiveWhileNotSynced | src/replication/slave.cpp:144-161 | outside SYNCED, a received command is only logged and nothing is executed |
| Replication.FreshHistory | src/replication/slave.cpp:412-413 | an empty log starting at the data offset, with the data checksum, is a continuous and caught-up history |
| Replication.ResetBothContinuous | src/replication/slave.cpp:395-413 | resetting log and data to the same offset and checksum starts a continuous, caught-up history |
| Replication.ReplayCommands | src/replication/slave.cpp:106-124 | the replay loop executes exactly the commands decoded from the buffer, up to the first that does not decode, and advances the offset and checksum over exactly their bytes |
| Replication.ReplayAdvances | src/replication/slave.cpp:114-121 | one turn of the replay loop decodes the next command and keeps the loop's invariant |
| Replication.InfoVersionOf | src/replication/slave.cpp:238-247 | the version read from an INFO reply is the trimmed value of its `redis_version:` line |
| Replication.SupportsPsyncOf | src/replication/slave.cpp:248 | a Redis master supports partial resync exactly from version 2.7.0 on |
| Replication.VersionPartsOf | src/replication/slave.cpp:248 | each dot-separated part of "a.b.c" reads back as the number written there |
| Replication.Elapsed | src/replication/slave.cpp:178 | `now - m_cmd_recved_time` in uint32 arithmetic: the difference, or the difference plus 2^32 when the clock went back |
| Replication.Slave.constructor | src/replication/slave.cpp:54-59 | no connection, status cleared, time stamps zero |
| Replication.Slave.Close | src/replication/slave.cpp:490-496 | a close is requested exactly when there is a connection |
| Replication.Slave.Timeout | src/replication/slave.cpp:449-453 | a timeout closes the connection, if any |
| Replication.Slave.Stop | src/replication/slave.cpp:485-489 | the state goes INVALID and the connection, if any, is closed |
| Replication.Slave.ChannelClosed | src/replication/slave.cpp:440-447 | the connection is gone, the status starts over, and the link-down and last-interaction times are now |
| Replication.Slave.ConnectMaster | src/replication/slave.cpp:455-478 | -1 without a master; 0 otherwise; a new connection (reply decoder, CONNECTING) only when none is open |
| Replication.Slave.InfoMaster | src/replication/slave.cpp:197-203 | "info Server" is sent and the state is WAITING_INFO_REPLY |
| Replication.Slave.ChannelConnected | src/replication/slave.cpp:126-140 | the time stamps are reset; with a master password "auth" is sent first (WAITING_AUTH_REPLY), otherwise INFO |
| Replication.Slave.ReplayLog | src/replication/slave.cpp:106-124 | in SYNCED, the store gains the buffer's decoded commands and the offset advances over their bytes; otherwise nothing changes |
| Replication.Slave.ReplayWal | src/replication/slave.cpp:85-104 | the effect is exactly the replay specification; the status, and with it the replay guard, is as it was on entry |
| Replication.Slave.HandleRedisCommand | src/replication/slave.cpp:142-162 | the command is logged first; the effect on log, store and cache is exactly the receive specification |
| Replication.Slave.Routine | src/replication/slave.cpp:163-195 | nothing happens without a master; otherwise a replay, then a connect when disconnected, otherwise the keep-alive step |
| Replication.Slave.KeepAlive | src/replication/slave.cpp:176-194 | a SYNCED link silent for the replication timeout is closed; in SYNCED or LOADING_SNAPSHOT a PSYNC-capable master gets an ACK of the data offset; the routine time stamp moves on unless the link timed out |
| Replication.Slave.LoadRdbRoutine | src/replication/slave.cpp:205-215 | -1 and no change once the state left LOADING_SNAPSHOT; otherwise 0, no replay, and the keep-alive ACK |
| Replication.Slave.HandleRedisReply | src/replication/slave.cpp:216-359 | each handshake state's reply: AUTH always moves on to INFO (closing on error); INFO detects a Redis or Comms master and its PSYNC support; REPLCONF sends psync (with the checksum only to Comms) or sync; PSYNC's FULLRESYNC caches run id, offset and checksum, and CONTINUE goes SYNCED; every error, malformed offset or checksum, and reply in another state requests a close |
| Replication.Slave.HandleRedisDumpChunk | src/replication/slave.cpp:361-421 | outside WAITING_SNAPSHOT the link is closed and nothing changes; chunks are collected; the last one loads the snapshot, with the commands the master sends during the load logged and, after a successful load, executed in order |
| Replication.Slave.CollectChunk | src/replication/slave.cpp:369-382 | the first chunk starts a new file; every chunk's data is appended |
| Replication.Slave.LoadSnapshot | src/replication/slave.cpp:383-420 | a failed load stays in LOADING_SNAPSHOT with the link closed and the log restarted at the master's offset under a random key, holding the commands received meanwhile; a successful one loads the snapshot, runs those commands after it in order, adopts the master's run id, offset and checksum, disconnects the replicas and goes SYNCED |
| Replication.Slave.StartLoading | src/replication/slave.cpp:385-402 | command decoder, LOADING_SNAPSHOT, log restarted at the cached offset under a random key, store flushed when configured; the commands received during the load are then logged after it and none is executed |
| Replication.Slave.AdoptMaster | src/replication/slave.cpp:412-419 | over a log holding the commands received during the load, the snapshot is loaded, the data offset and checksum are set to the log's start, the replicas are disconnected, and the replay executes exactly those commands in order and leaves the data offset and checksum at the log end |
| Replication.Slave.ReceiveWhileLoading | src/replication/slave.cpp:142-150 | in LOADING_SNAPSHOT each received command is appended to the log and nothing is executed |
| Replication.LoggedWhileLoading | src/replication/slave.cpp:394-395 | the log restarted at the master's offset and checksum and fed the commands received during the load holds exactly those commands, its checksum the master's extended over them |
| Replication.AdoptCatchesUp | src/replication/slave.cpp:412-419 | setting the data offset to the start of such a log and replaying executes its commands once each, in order, and leaves a continuous history with nothing unapplied |
| Replication.ResyncCatchesUp | src/replication/slave.cpp:390-419 | after a full resync the backlog is continuous and caught up, its log starts at the master's offset and holds exactly the commands received during the load, and the data checksum is the master's extended over them |
| Wal.FrameLength | src/replication/slave.cpp:114 | the decoder consumes at most the buffer |
| Wal.FrameLengthDecodes | src/replication/slave.cpp:114-117 | decoding succeeds exactly when a whole command is buffered, and yields one whole command |
| Wal.FramesAreFrames | src/replication/slave.cpp:110-117 | every command the loop decodes is a whole command |
| Wal.FramesOfFlatten | src/replication/slave.cpp:110-117 | decoding the concatenation of whole commands gives those commands back |
| Wal.FramesStopAtUndecodable | src/replication/slave.cpp:110-117 | decoding consumes a prefix of the buffer and stops only where no whole command is left |
| Wal.FlattenAppend | src/replication/slave.cpp:110-121 | the bytes of two runs of commands are the bytes of each, in order |
| Wal.FrameLengthOfFrame | src/replication/slave.cpp:114 | a whole command at the head of a buffer is decoded as exactly that command |
| Wal.FramedAppend | src/replication/slave.cpp:150 | appending a whole command to a log of whole commands keeps it so, with the command last |
| Wal.FramedTail | src/replication/slave.cpp:110-121 | removing the first command of a log of whole commands leaves a log of whole commands |
| Wal.CksmAppend | src/replication/slave.cpp:121 | checksumming in two steps is checksumming the whole |
| ReplyArena.Handout | src/common/channel/codec/redis_reply.cpp:59-76 | a reply handed out was not handed out before and was still to come (or is new); nothing new becomes due |
| ReplyArena.HandoutSlot | src/common/channel/codec/redis_reply.cpp:73-75 | handing out the table slot at the cursor |
| ReplyArena.HandoutOverflow | src/common/channel/codec/redis_reply.cpp:61-71 | handing out the overflow entry at the cursor after growing the overflow |
| ReplyArena.Take | src/common/channel/codec/redis_reply.cpp:112 | the child a reply takes from its pool is a fresh hand-out bound to the pool, and earlier hand-outs keep their types |
| ReplyArena.RedisReply.SetPool | src/common/channel/codec/redis_reply.cpp:86-93 | a non-null pool is bound and not owned; a null pool changes nothing |
| ReplyArena.RedisReply.GetPool | src/common/channel/codec/redis_reply.cpp:95-103 | the bound pool, or a new empty pool the reply owns |
| ReplyArena.RedisReply.MemberSize | src/common/channel/codec/redis_reply.cpp:137-144 | the number of children, 0 for a reply without children |
| ReplyArena.RedisReply.MemberAt | src/common/channel/codec/redis_reply.cpp:145-148 | the child at `i` exactly when `i` is in range |
| ReplyArena.RedisReply.Clear | src/common/channel/codec/redis_reply.cpp:149-160 | the reply holds nothing; an owned pool is cleared |
| ReplyArena.RedisReply.AddMember | src/common/channel/codec/redis_reply.cpp:105-122 | the reply becomes an array with one more child, from the pool, appended at the tail or the head |
| ReplyArena.RedisReply.ReserveMember | src/common/channel/codec/redis_reply.cpp:123-136 | for any count, the reply becomes an array of at least `num` children, the old ones kept in place and the added ones NIL |
| ReplyArena.NextCounterAsWritten | src/common/channel/codec/redis_reply.cpp:130 | the uint32 loop counter wraps to 0 exactly after 2^32 - 1 |
| ReplyArena.ReserveLoopEndlessAsWritten | src/common/channel/codec/redis_reply.cpp:130 | with a count of 2^32 or more the loop test holds before and after every increment of the uint32 counter |
| ReplyArena.RedisReply.PushNil | src/common/channel/codec/redis_reply.cpp:130-135 | one loop turn of ReserveMember: a NIL child from the pool, appended |
| ReplyArena.RedisReplyPool.NextIsUpcoming | src/common/channel/codec/redis_reply.cpp:73-75 | the slot Allocate hands out next is still to come |
| ReplyArena.RedisReplyPool.constructor | src/common/channel/codec/redis_reply.cpp:42-46 | the size is recorded first, so SetMaxSize leaves the table empty |
| ReplyArena.RedisReplyPool.SetMaxSize | src/common/channel/codec/redis_reply.cpp:47-58 | unless the size is 0 or unchanged, the table is resized to it (kept prefix, new empty slots) and every slot is bound to the pool |
| ReplyArena.RedisReplyPool.GrowTable | src/common/channel/codec/redis_reply.cpp:51 | growing the table adds new empty replies and keeps the old ones |
| ReplyArena.RedisReplyPool.BindTable | src/common/channel/codec/redis_reply.cpp:53-56 | every slot is bound to the pool |
| ReplyArena.RedisReplyPool.Allocate | src/common/channel/codec/redis_reply.cpp:59-76 | within the table, the slot at the cursor, cleared; beyond it, the overflow grown up to the cursor and that entry as it is; the cursor moves on by one |
| ReplyArena.RedisReplyPool.GrowOverflow | src/common/channel/codec/redis_reply.cpp:63-68 | the overflow grows with new empty replies until it reaches the cursor |
| ReplyArena.RedisReplyPool.Clear | src/common/channel/codec/redis_reply.cpp:77-84 | the cursor is 0 and the overflow dropped, so everything in the table is to come again |
| ConfigHelper.ConfGetString | src/common/util/config_helper.cpp:143-152 | an absent name returns `ignore_nonexist` and keeps the value; a present one returns its first value |
| ConfigHelper.ConfGetBool | src/common/util/config_helper.cpp:154-171 | a present name is true exactly for "true", "1" or "yes" in any case |
| ConfigHelper.ReadInt64AsWritten | src/common/util/config_helper.cpp:119-141 | a plain integer is accepted as it is; a rejected value still leaves atoll's reading |
| ConfigHelper.ConfGetInt64AsWritten | src/common/util/config_helper.cpp:112-142 | conf_get_int64 as written, on the first value of a present name |
| ConfigHelper.ReadInt64 | src/common/util/config_helper.cpp:119-141 | a plain integer is accepted; otherwise accepted exactly when the text ends with a size suffix |
| ConfigHelper.ConfGetInt64 | src/common/util/config_helper.cpp:112-142 | conf_get_int64 with its suffix test as evidently intended |
| ConfigHelper.SuffixScaleFound | src/common/util/config_helper.cpp:125-136 | a multiplier is found exactly when the text ends with M, MB, G, GB, K or KB |
| ConfigHelper.SizeSuffixScaled | src/common/util/config_helper.cpp:123-136 | "<n><suffix>" reads as n times the suffix's multiplier, in any case |
| ConfigHelper.AsWrittenAgreesOnSizes | src/common/util/config_helper.cpp:123-136 | the source's find-based test agrees with the intended reading on every "<n><suffix>" |
| ConfigHelper.AsWrittenScales | src/common/util/config_helper.cpp:123-136 | as written, digits followed by a size suffix are scaled by that suffix |
| ConfigHelper.HitAfterDigits | src/common/util/config_helper.cpp:125-133 | after digits, the find-based test matches exactly the suffix written |
| ConfigHelper.SuffixHit | src/common/util/config_helper.cpp:125-133 | among the size suffixes, the find-based test singles out exactly the suffix itself |
| ConfigHelper.EarlierSuffixLetterAsWritten | src/common/util/config_helper.cpp:124-139 | on "<n>MM" the find-based test matches no suffix, so the value is rejected with atoll's n stored, while the ends-with reading gives n megabytes |
| ConfigHelper.OneCharValueAcceptedAsWritten | src/common/util/config_helper.cpp:125 | the source accepts "x" as 0 megabytes, where the intended reading rejects it |
| ConfigHelper.ConfSet | src/common/util/config_helper.cpp:62-72 | the value is added as the last occurrence, after dropping the earlier ones when `replace` holds; other names are untouched |
| ConfigHelper.FirstWith | src/common/util/config_helper.cpp:45-54 | the first occurrence whose first value matches, if any |
| ConfigHelper.ConfDel | src/common/util/config_helper.cpp:40-60 | the loop removes exactly what the deletion specification says |
| ConfigHelper.SetReplaceThenDelete | src/common/util/config_helper.cpp:40-72 | replacing a name by one value and then deleting that value removes the name |
| ConfigHelper.DeleteAbsentValue | src/common/util/config_helper.cpp:40-60 | deleting a value a name does not carry leaves the map as it was |
| ConfigHelper.ExpandValue | src/common/util/config_helper.cpp:241-260 | the in-place loop computes the substitution specification; when it ends on its own, nothing substitutable is left |
| ConfigHelper.ExpandSettles | src/common/util/config_helper.cpp:241-260 | a substitution that ends on its own leaves nothing substitutable |
| ConfigHelper.SubstLeftmost | src/common/util/config_helper.cpp:243-255 | when the first "${" in the value is closed by the next '}' and the key between them is defined, that "${KEY}" is replaced by its value |
| ConfigHelper.ReplaceEnvVar | src/common/util/config_helper.cpp:228-267 | the same names, occurrences and number of values, each value rewritten on its own |
| ConfigHelper.ReplaceEnvVarIni | src/common/util/config_helper.cpp:269-278 | the same sections, each rewritten |
| ConfigHelper.ConfLine | src/common/util/config_helper.cpp:85-105 | a line is malformed exactly when it is neither blank, nor a comment, nor a key with at least one value |
| ConfigHelper.ParseConfFile | src/common/util/config_helper.cpp:74-110 | false when the file cannot be opened; otherwise the loop computes the filing specification |
| ConfigHelper.FoldOk | src/common/util/config_helper.cpp:92-97 | reading succeeds exactly when no line is malformed |
| ConfigHelper.FoldAppends | src/common/util/config_helper.cpp:105 | each key's occurrences are appended after what was there, in file order |
| ConfigHelper.FoldKeepsOthers | src/common/util/config_helper.cpp:105 | keys no line mentions keep their occurrences |
| ConfigHelper.IniLine | src/common/util/config_helper.cpp:194-205 | "[tag]" is a section header; any other line is read as in the plain reader |
| ConfigHelper.ParseIniConfFile | src/common/util/config_helper.cpp:182-226 | false when the file cannot be opened; otherwise the loop computes the sectioned filing specification |
| ConfigHelper.IniSectionIsConfParse | src/common/util/config_helper.cpp:206-221 | between headers, the INI reader files lines exactly as the plain reader, into the current section only |
| ConfigHelper.IniClassifyWithoutSections | src/common/util/config_helper.cpp:194-205 | without headers, both readers classify lines alike |
| Config.VerifyConfig | src/config.cpp:39-57 | the configuration is accepted exactly when a replica has a positive backlog size, the password is at most 512 bytes and there are at most 0xFFFFFF databases |
| Config.DefaultsVerify | src/config.hpp:116-127 | the constructor defaults pass the check |
| Config.SingleValues | src/config.cpp:96-107 | at most one listener per occurrence |
| Config.SingleValuesFrom | src/config.cpp:98-106 | every listener is the one value of some occurrence |
| Config.SingleValuesAll | src/config.cpp:96-107 | when every occurrence has one value, all are kept, in order |
| Config.Uint32Values | src/config.cpp:117-128 | at most one value per occurrence, each below 2^32 |
| Config.Uint32ValuesAll | src/config.cpp:117-128 | occurrences that are uint32 numbers are all kept, with their values, in order |
| Config.Resized | src/config.cpp:147-148 | vector::resize: the length is the listener count, the prefix is kept, and zeros pad |
| Config.AppendSingleValues | src/config.cpp:96-107 | the listen loop appends exactly the single-valued occurrences |
| Config.AppendUint32Values | src/config.cpp:117-128 | the thread-pool-size and qps-limit loops append exactly the valid uint32 occurrences |
| Config.Slaveof | src/config.cpp:205-220 | without exactly one ':' the master is unchanged |
| Config.SlaveofHostPort | src/config.cpp:205-216 | "host:port" sets exactly that host and port |
| Config.SlaveofBadPort | src/config.cpp:211-214 | a port that is not a number clears the host |
| Config.RenamesDistinct | src/config.cpp:254-274 | no two commands are renamed to the same name, and every rename comes from one two-valued occurrence |
| Config.RenamesAllDistinct | src/config.cpp:261-273 | two-valued occurrences with distinct new names are all accepted |
| Config.DecodeListeners | src/config.cpp:92-148 | at least one listener: the single-valued listen occurrences after the earlier ones, or the default address when there are none; one pool size and QPS limit per listener |
| Config.DecodeSettingsAbsent | src/config.cpp:163-280 | properties that mention none of the decoded options leave every setting as it was |
| Config.DecodeSlaveof | src/config.cpp:204-216 | "slaveof host:port" with a numeric port sets exactly that master host and port |
| Config.WithTestDefaults | src/config.cpp:316-323 | maxmemory "100000" and dbfilename "testfile" are added only when absent; everything else is kept |
| Config.CommsConfig.constructor | src/config.hpp:116-127 | the defaults: timeout 60, reply pool 5000, 16 databases, 1 GB backlog, flush before a full resync |
| Config.CommsConfig.ParseListen | src/config.cpp:92-112 | the single-valued listen occurrences are appended; with none at all, the default address |
| Config.CommsConfig.ParsePerListener | src/config.cpp:113-148 | the valid sizes and limits, resized to one per listener |
| Config.CommsConfig.ParseBackupFormat | src/config.cpp:163-168 | "redis" in any case switches the Redis format on; nothing switches it off |
| Config.CommsConfig.ParseSlaveof | src/config.cpp:204-221 | the master host and port as the slaveof specification says; unchanged when absent |
| Config.CommsConfig.ParseRenameCommand | src/config.cpp:254-274 | present, the renames are exactly the accepted occurrences; absent, unchanged |
| Config.CommsConfig.ReadScalars | src/config.cpp:176-280 | each numeric option is what conf_get_int64 as written stores, its flag ignored; the boolean and password options are what conf_get_bool and conf_get_string store; each is unchanged when absent |
| Config.CommsConfig.ParseListeners | src/config.cpp:92-148 | the addresses, pool sizes and QPS limits are exactly the listener decoding of the properties over the earlier values |
| Config.CommsConfig.ParseSettings | src/config.cpp:163-280 | backup format, master host and port, password, renames and the numeric options are exactly the settings decoding of the properties over the earlier values |
| Config.CommsConfig.AddTestDefaults | src/config.cpp:316-323 | `conf_props` becomes itself with the test defaults added |
| Config.CommsConfig.Parse | src/config.cpp:58-325 | the listeners and settings are exactly the decoding of the properties after `${VAR}` substitution; the result is verify_config's verdict; `conf_props` is the properties before substitution, plus the test defaults on success |
| Connection.SelectIndex | src/command/connection.cpp:50 | a database index is accepted exactly when it is a uint32 below the database count |
| Connection.SelectDecimal | src/command/connection.cpp:49-57 | a decimal index selects exactly that database when it is below the count |
| Connection.CheckPassword | src/command/connection.cpp:62-75 | no password set, a match exactly when the given text is the password, a mismatch otherwise |
| Connection.Quit | src/command/connection.cpp:32-36 | replies OK and returns -1 |
| Connection.Ping | src/command/connection.cpp:37-41 | replies PONG and returns 0 |
| Connection.Echo | src/command/connection.cpp:42-46 | replies with exactly the first argument |
| Connection.Select | src/command/connection.cpp:47-58 | an invalid index is an error that leaves the database alone; a valid one switches to it and replies OK |
| Connection.Auth | src/command/connection.cpp:60-77 | with no password set, an error that leaves the flag alone; otherwise the flag becomes whether the password matched, with the matching reply |
| Strings.Find | src/replication/slave.cpp:240-244 | std::string::find: the first occurrence at or after the start, or none |
| Strings.Split | src/config.cpp:207 | split_string: pieces without the separator, at least one |
| Strings.JoinSplit | src/config.cpp:207 | joining the pieces back gives the text |
| Strings.SplitJoin | src/replication/slave.cpp:307 | splitting pieces joined by a separator they lack gives them back |
| Strings.ParseUInt32 | src/config.cpp:120 | string_touint32: a number is read only when it is below 2^32 |
| Strings.ParseInt64 | src/replication/slave.cpp:311 | string_toint64: a number is read only when it fits in an int64 |
| Strings.ParseNatToString | src/command/connection.cpp:50 | printing a number and reading it back gives the number |
| Strings.ParseInt64IntToString | src/replication/slave.cpp:311 | an int64 printed with %lld reads back with string_toint64 |
| Strings.TrimBounds | src/replication/slave.cpp:247 | trimmed text neither starts nor ends with a blank |
| Strings.AtollOfNumberThen | src/common/util/config_helper.cpp:124 | atoll reads the leading number of "<digits><letters>" |

## Left out

- Network I/O is not modelled: sockets, pipelines, `Connect`, `Write`. Writes are appended to `sent`, and `Close`/`ch->Close()` set `closeRequested`. The connection is dropped only by `ChannelClosed`.
- `GetIOServ().Continue()` inside the replay loop and the snapshot reload is not modelled. Nothing interleaves with a replay. During a load, the commands the master sends are modelled as a sequence handled in order (`during`); the keep-alive ACKs and other events during a load are not.
- `MessageReceived` (src/replication/slave.cpp:423-438) only dispatches to the three handlers. Its last-interaction update is not modelled.
- `Slave::Init` and the timer are not modelled; `Routine` and `LoadRdbRoutine` are called with `now` as a parameter. `time(NULL)` is a parameter throughout.
- The command decoder is foreign. A command's raw protocol data is taken to be one line ending in LF. This keeps every command self-delimiting, as the decoder's output is.
- The WAL checksum is foreign. A concrete byte-by-byte fold stands in for it, and only its composition (`CksmAppend`) is used.
- `swal_replay` hands the bytes from the data offset to the log end as one buffer (`Window`). Chunked delivery is not modelled.
- The store (`g_db->Call`, `FlushAll`, snapshot reload) is a log of operations. The snapshot file (path, rename, Redis vs. mmkv type detection) is not modelled. `reloadOk` and the random server key are parameters.
- The `m_slave_ctx` client context used for replayed commands is not modelled.
- Replication.Slave.HandleRedisReply requires the `redis_version:` key in a Redis INFO reply, because a Redis master's `INFO Server` reply always carries it. Without the key the source does not fail at once: `find` gives npos, the start `npos + 14` wraps to 13 and the length wraps too, so the text from offset 13 to the end, trimmed, is compared with 2.7.0, and `substr` throws `std::out_of_range` only for a reply shorter than 13 bytes. That path is not modelled.
- Replication.Slave.HandleRedisReply requires a third field in a FULLRESYNC reply. The source reads `ss[2]` without a bounds check (undefined behaviour otherwise).
- `compare_version` is foreign. `SupportsPsync` compares the first three dot-separated numbers against 2.7.0, reading each as atoll would.
- Replication.Slave.AdoptMaster does not state continuity of the adopted backlog in its own contract. It is proved by the lemmas `AdoptCatchesUp` and `ResyncCatchesUp` about the record the contract gives.
- ReplyArena.RedisReply.AddMember and ReserveMember require that the reply is not one its pool has yet to hand out. On such a reply the source's `Allocate` clears it (redis_reply.cpp:73-74, 155) and deletes the child deque that AddMember then pushes onto (lines 115, 119), undefined behaviour that is not modelled.
- ReplyArena.RedisReply.AddMember and ReserveMember take the size of a self-created pool as a parameter. `new RedisReplyPool` uses the header's default, which is not part of this model.
- ReplyArena.RedisReply.MemberAt returns `None` for an index out of range and for a reply without children. The source's `elements->at(i)` throws `std::out_of_range` in the first case and dereferences NULL in the second; `None` stands for both failures.
- The RedisReply destructor, `double_value` beyond its reset, and the deque's iterator and reference stability are not modelled. Children are object references in a `seq`.
- `conf_get_double` is not modelled: it is floating point.
- ConfigHelper.ExpandValue and ReplaceEnvVar carry a `fuel` bound on substitution rounds. The source loops forever on a value that keeps re-creating a defined `${KEY}`. `getenv` is an environment map parameter.
- File opening and the 1024-byte line limit of the configuration readers are not modelled. A file is a sequence of lines, or None when it cannot be opened.
- Config.CommsConfig.Parse leaves out its filesystem steps: `home` and the directory checks (which can return false), `make_dir`, `real_path`, `setenv("COMMS_HOME")`. It also leaves out the options outside the modelled blocks (pidfile, timeouts, include/exclude dbs, trusted-ip, mmkv options, log level).
- Config.CommsConfig.Parse groups the modelled reads by block. Each block writes only its own fields, so their order does not change the result.
- Config.CommsConfig.ReadScalars reads numbers with `ConfGetInt64AsWritten`, as the source does, so a value the suffix test rejects ("10MM") stores atoll's unscaled reading. The 64-bit overflow of a scaled value (`value *= 1024 * 1024 * 1024`) is not modelled: integers are unbounded.
- Config.CommsConfig.ParseSlaveof assumes `string_touint32` leaves `master_port` unchanged on failure. string_helper.cpp is not part of this model.
- The string helpers (string_helper.cpp) are not part of this model. `split_string` is taken to keep empty pieces and `split_str` to drop them. Numbers are ASCII decimal without a leading `+`.
- The handlers in Connection take the command's arguments as a sequence and require the first one. The dispatcher's arity check is not part of this model. The `fill_*_reply` helpers are modelled as reply values with the message text the handler passes.

## Findings

| source | as written | input that shows it | evidently intended | confidence | as-written member | corrected member |
|---|---|---|---|---|---|---|
| src/common/util/config_helper.cpp:125-136 | the suffix test `size_str.find("MB") == size_str.size() - 2` wraps `size() - 2` to npos on a one-character value, so a missing "MB" (npos) counts as a match; the corrected ends-with test also differs where a suffix letter occurs earlier, as in "10MM" (ConfigHelper.EarlierSuffixLetterAsWritten) | `conf_get_int64` on the value "x": returns true and stores 0 (0 megabytes) | a value that does not end with a size suffix is rejected | not executed | ConfigHelper.OneCharValueAcceptedAsWritten (over ConfigHelper.ReadInt64AsWritten) | ConfigHelper.ReadInt64 (with ConfigHelper.SizeSuffixScaled and ConfigHelper.SuffixScaleFound) |
| src/common/channel/codec/redis_reply.cpp:130 | `ReserveMember` counts with `uint32 i` up to a `size_t num`; the counter wraps to 0 after 2^32 - 1 | `ReserveMember(4294967296)`: `i < num` holds for every uint32 value, so the loop never exits and allocates without end | the loop reaches `num` and stops | not executed | ReplyArena.ReserveLoopEndlessAsWritten (over ReplyArena.NextCounterAsWritten) | ReplyArena.RedisReply.ReserveMember (unbounded counter; ends for every count) |
