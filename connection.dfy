/**
 * The connection commands (src/command/connection.cpp): QUIT, PING, ECHO,
 * SELECT and AUTH. Each handler fills the client context's reply, may
 * update the context's database or authentication flag, and returns the
 * status code the dispatcher acts on (-1 closes the connection after the
 * reply, 0 keeps it open).
 *
 * The dispatcher checks a command's arity before calling its handler, so
 * the handlers that read their first argument require one.
 */
module Connection {
  import opened Wrappers
  import opened Strings
  import opened Config

  /** The reply a handler leaves in the context, as the fill_*_reply helpers shape it. */
  datatype Reply = NoReply | Status(text: string) | Bulk(text: string) | Error(text: string)

  const OK_REPLY := Status("OK")
  const PONG_REPLY := Status("PONG")
  const INVALID_DB_INDEX := "invalid DB index"
  const NO_PASSWORD_SET := "Client sent AUTH, but no password is set"
  const INVALID_PASSWORD := "invalid password"

  /** The client context a handler works on. */
  class Context {
    var currentDB: uint32
    var authenticated: bool
    var reply: Reply

    constructor()
      ensures currentDB == 0 && !authenticated && reply == NoReply
    {
      currentDB := 0;
      authenticated := false;
      reply := NoReply;
    }
  }

  // ---------------------------------------------------------------------
  // SELECT
  // ---------------------------------------------------------------------

  /** The database SELECT switches to: a uint32 below the configured count. */
  function SelectIndex(arg: string, maxdb: int): (r: Option<uint32>)
    ensures r.Some? <==> ParseUInt32(arg).Some? && ParseUInt32(arg).value < maxdb
    ensures r.Some? ==> ParseUInt32(arg) == Some(r.value as nat)
  {
    match ParseUInt32(arg)
    case Some(n) => if n < maxdb then Some(n as uint32) else None
    case None => None
  }

  /** A decimal index is accepted exactly when it is below the database count. */
  lemma SelectDecimal(n: uint32, maxdb: int)
    ensures SelectIndex(NatToString(n), maxdb) == if n < maxdb then Some(n) else None
  {
    ParseNatToString(n);
  }

  // ---------------------------------------------------------------------
  // AUTH
  // ---------------------------------------------------------------------

  datatype AuthOutcome = NoPasswordSet | Mismatch | Match

  /** How AUTH compares the given password with the configured one. */
  function CheckPassword(requirepass: string, given: string): (r: AuthOutcome)
    ensures r == NoPasswordSet <==> requirepass == []
    ensures r == Match <==> requirepass != [] && given == requirepass
  {
    if requirepass == [] then NoPasswordSet
    else if requirepass != given then Mismatch
    else Match
  }

  // ---------------------------------------------------------------------
  // Handlers
  // ---------------------------------------------------------------------

  /** QUIT: reply OK and ask for the connection to be closed. */
  method Quit(ctx: Context) returns (r: int)
    modifies ctx`reply
    ensures r == -1 && ctx.reply == OK_REPLY
  {
    ctx.reply := OK_REPLY;
    r := -1;
  }

  /** PING: reply PONG. */
  method Ping(ctx: Context) returns (r: int)
    modifies ctx`reply
    ensures r == 0 && ctx.reply == PONG_REPLY
  {
    ctx.reply := PONG_REPLY;
    r := 0;
  }

  /** ECHO: reply with the first argument as it was given. */
  method Echo(ctx: Context, args: seq<string>) returns (r: int)
    requires |args| >= 1
    modifies ctx`reply
    ensures r == 0 && ctx.reply == Bulk(args[0])
  {
    ctx.reply := Bulk(args[0]);
    r := 0;
  }

  /** SELECT: switch to a valid database and reply OK, or reply with an error and stay. */
  method Select(cfg: CommsConfig, ctx: Context, args: seq<string>) returns (r: int)
    requires |args| >= 1
    modifies ctx`currentDB, ctx`reply
    ensures r == 0
    ensures SelectIndex(args[0], cfg.maxdb).None? ==>
              ctx.currentDB == old(ctx.currentDB) && ctx.reply == Error(INVALID_DB_INDEX)
    ensures SelectIndex(args[0], cfg.maxdb).Some? ==>
              ctx.currentDB == SelectIndex(args[0], cfg.maxdb).value && ctx.reply == OK_REPLY
  {
    var newdb := ParseUInt32(args[0]);
    if newdb.None? || newdb.value >= cfg.maxdb {
      ctx.reply := Error(INVALID_DB_INDEX);
      return 0;
    }
    ctx.currentDB := newdb.value;
    ctx.reply := OK_REPLY;
    r := 0;
  }

  /**
   * AUTH: with no password configured, an error that leaves the flag alone;
   * otherwise the flag records whether the password matched.
   */
  method Auth(cfg: CommsConfig, ctx: Context, args: seq<string>) returns (r: int)
    requires |args| >= 1
    modifies ctx`authenticated, ctx`reply
    ensures r == 0
    ensures CheckPassword(cfg.requirepass, args[0]) == NoPasswordSet ==>
              ctx.authenticated == old(ctx.authenticated) && ctx.reply == Error(NO_PASSWORD_SET)
    ensures CheckPassword(cfg.requirepass, args[0]) == Mismatch ==>
              !ctx.authenticated && ctx.reply == Error(INVALID_PASSWORD)
    ensures CheckPassword(cfg.requirepass, args[0]) == Match ==>
              ctx.authenticated && ctx.reply == OK_REPLY
  {
    if cfg.requirepass == [] {
      ctx.reply := Error(NO_PASSWORD_SET);
    } else if cfg.requirepass != args[0] {
      ctx.authenticated := false;
      ctx.reply := Error(INVALID_PASSWORD);
    } else {
      ctx.authenticated := true;
      ctx.reply := OK_REPLY;
    }
    r := 0;
  }
}
