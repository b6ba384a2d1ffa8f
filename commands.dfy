/**
  What each command does, as a function of the keyspace before it, its
  argument vector (`argv[0]` is the command name) and the clock reading `now`.

  Every command returns at its first failed check, and only then writes the
  object, the version, the TTL and the replicated form. The checks keep each
  command's own order: EXSET looks at arity, options, numeric conversions,
  the entry's type, the NX/XX veto and the version; EXINCRBY checks the type
  before any number; EXSETVER checks the type and an absent key before the
  version; EXCAD checks the type before parsing; EXAPPEND and EXPREPEND test
  NX before the type.
 */
module Commands {
  import opened Optional
  import opened Decimal
  import opened ExFlags
  import opened ExFlagsLemmas
  import opened Keyspace
  import opened Replication

  // The out-parameters and allow-masks each command passes to the parser.

  const ExSetSlots := Slots(true, true, true, false, false, false)
  const ExSetAllow: set<Flag> :=
    {SetNx, SetXx, SetEx, SetPx, SetAbsExpire, SetKeepTtl, SetWithVer, SetWithAbsVer, SetWithFlags, ReturnWithVer}

  const IncrSlots := Slots(true, true, false, true, true, true)
  const IncrAllow: set<Flag> :=
    {SetNx, SetXx, SetEx, SetPx, SetAbsExpire, SetKeepTtl, SetWithVer, SetWithAbsVer, ReturnWithVer,
     SetWithDef, SetNoNegative, SetWithBoundary}

  const ExpireSlots := Slots(true, false, false, false, false, false)
  const CasAllow: set<Flag> := {SetEx, SetPx, SetAbsExpire, SetKeepTtl}
  const GaeAllow: set<Flag> := {SetEx, SetPx, SetAbsExpire}

  const AppendSlots := Slots(false, true, false, false, false, false)
  const AppendAllow: set<Flag> := {SetNx, SetXx, SetWithVer, SetWithAbsVer}

  /** A freshly allocated object: version 0, flags 0, no payload. */
  const Fresh := TairObj(0, 0, [])

  /** The deadline a replicated `PXAT` carries: the applied delta plus the clock. */
  function ReplicatedDeadline(a: TtlAction, now: int): (d: Option<int>)
    ensures d.Some? <==> a.ExpireIn?
    ensures a.ExpireIn? ==> ApplyTtl(map[], "", a, now)[""] == d.value
  {
    if a.ExpireIn? then Some(now + a.ms) else None
  }

  /** The common contract of the commands: a valid keyspace stays valid, and only `argv[1]` can change. */
  ghost predicate Confined(db: Db, argv: seq<string>, r: Outcome) {
    && Valid(r.db)
    && (r.reply.Err? || r.reply.Null? ==> Quiet(db, r))
    && (!Quiet(db, r) ==> |argv| >= 2 && SameElsewhere(db, r.db, argv[1]))
  }

  // ---------------------------------------------------------------- EXSET

  /** `EXSET key value [EX|EXAT|PX|PXAT t] [NX|XX] [VER|ABS v] [FLAGS f] [WITHVERSION] [KEEPTTL]`. */
  function ExSet(db: Db, argv: seq<string>, now: int): (r: Outcome)
    requires Valid(db)
    ensures Confined(db, argv, r)
  {
    if |argv| < 3 then Fail(db, WrongArity)
    else match ParseSpec(argv, 3, ExSetSlots, ExSetAllow)
      case None => Fail(db, SyntaxError)
      case Some(p) =>
        if BadNum(p.expire) || BadNum(p.version) || BadNum(p.flagsArg) then Fail(db, SyntaxError)
        else if (p.expire.Some? && Num(p.expire) <= 0) || Num(p.version) < 0
             || Num(p.flagsArg) < 0 || Num(p.flagsArg) > MaxUint32 then Fail(db, SyntaxError)
        else
          var key := argv[1];
          if key !in db.entries then
            if SetXx in p.flags then Unchanged(db, Null)
            else ExSetWrite(db, argv, p, Fresh, now)
          else match db.entries[key]
            case Tair(obj) =>
              if SetNx in p.flags then Unchanged(db, Null)
              else if !VersionAccepted(p.flags, Num(p.version), obj.version) then Fail(db, VersionError)
              else ExSetWrite(db, argv, p, obj, now)
            case _ => Fail(db, WrongType)
  }

  /** The write half of EXSET, once every check has passed; `obj` is the object being overwritten. */
  function ExSetWrite(db: Db, argv: seq<string>, p: Parsed, obj: TairObj, now: int): (r: Outcome)
    requires Valid(db) && |argv| >= 3
    requires 0 <= Num(p.version) && 0 <= Num(p.flagsArg) <= MaxUint32
    ensures Valid(r.db) && SameElsewhere(db, r.db, argv[1])
  {
    var key := argv[1];
    var stored := TairObj(NewVersion(obj.version, p.flags, Num(p.version)),
                          if SetWithFlags in p.flags then Num(p.flagsArg) else obj.flags,
                          argv[2]);
    var ttl := TtlActionOf(p.expire, p.flags, now);
    var cmd := ExSetForm(key, argv[2], stored.version, ReplicatedDeadline(ttl, now),
                         if p.flagsArg.Some? then Some(stored.flags) else None, ttl.Retain?);
    Outcome(if ReturnWithVer in p.flags then Int(ToSigned(stored.version)) else Status("OK"),
            Install(db, key, Tair(stored), ttl, now), [cmd])
  }

  // ---------------------------------------------------------------- EXGET

  /** `EXGET key [WITHFLAGS]`: the value and version, and the flags when asked. */
  function ExGet(db: Db, argv: seq<string>): (r: Outcome)
    ensures Quiet(db, r)
  {
    if |argv| < 2 || |argv| > 3 then Fail(db, WrongArity)
    else if |argv| == 3 && !CaseInsensitiveEquals(argv[2], "withflags") then Fail(db, SyntaxError)
    else if argv[1] !in db.entries then Unchanged(db, Null)
    else match db.entries[argv[1]]
      case Tair(obj) =>
        Unchanged(db, Arr([Bulk(obj.value), Int(ToSigned(obj.version))]
                          + (if |argv| == 3 then [Int(obj.flags)] else [])))
      case _ => Fail(db, WrongType)
  }

  // ---------------------------------------------------------------- EXINCRBY

  /** The overflow and bounds test of EXINCRBY, as the code writes it (with `LLONG_MIN - value` and `LLONG_MAX - value`). */
  predicate IncrRejected(value: int, incr: int, min: Option<int>, max: Option<int>) {
    || (incr < 0 && value < 0 && incr < MinInt64 - value)
    || (incr > 0 && value > 0 && incr > MaxInt64 - value)
    || (max.Some? && value + incr > max.value)
    || (min.Some? && value + incr < min.value)
  }

  /** `EXINCRBY key num [DEF d] [EX|EXAT|PX|PXAT t] [NX|XX] [VER|ABS v] [MIN m] [MAX m] [NONEGATIVE] [WITHVERSION] [KEEPTTL]`. */
  function ExIncrBy(db: Db, argv: seq<string>, now: int): (r: Outcome)
    requires Valid(db)
    ensures Confined(db, argv, r)
  {
    if |argv| < 3 then Fail(db, WrongArity)
    else match ParseSpec(argv, 3, IncrSlots, IncrAllow)
      case None => Fail(db, SyntaxError)
      case Some(p) =>
        var key := argv[1];
        if key in db.entries && !db.entries[key].Tair? then Fail(db, WrongType)
        else match IncrCheck(argv, p)
          case Some(e) => Fail(db, e)
          case None => IncrOnKey(db, argv, p, now)
  }

  /** The number checks of EXINCRBY, in the order the handler makes them: the first that fails names the error. */
  function IncrCheck(argv: seq<string>, p: Parsed): (e: Option<Error>)
    requires |argv| >= 3
    ensures e.None? ==> ParseLongLong(argv[2]).Some? && 0 <= Num(p.version)
    ensures e.None? ==> !BadNum(p.defaultValue) && !BadNum(p.expire) && !BadNum(p.version)
    ensures e.None? ==> !BadNum(p.min) && !BadNum(p.max) && (p.expire.Some? ==> Num(p.expire) > 0)
    ensures e.None? ==> (p.min.Some? && p.max.Some? ==> Num(p.min) <= Num(p.max))
  {
    if ParseLongLong(argv[2]).None? || BadNum(p.defaultValue) then Some(NotInteger)
    else if BadNum(p.expire) || BadNum(p.version) then Some(SyntaxError)
    else if (p.expire.Some? && Num(p.expire) <= 0) || Num(p.version) < 0 then Some(SyntaxError)
    else if BadNum(p.min) || BadNum(p.max) then Some(MinMaxError)
    else if p.min.Some? && p.max.Some? && Num(p.max) < Num(p.min) then Some(MinMaxError)
    else None
  }

  /** The key-dependent checks of EXINCRBY: the NX/XX veto, a stored value that is a number, the version. */
  function IncrOnKey(db: Db, argv: seq<string>, p: Parsed, now: int): (r: Outcome)
    requires Valid(db) && |argv| >= 3 && ParseLongLong(argv[2]).Some?
    requires 0 <= Num(p.version)
    requires argv[1] in db.entries ==> db.entries[argv[1]].Tair?
    ensures Valid(r.db)
    ensures r.reply.Err? || r.reply.Null? ==> Quiet(db, r)
    ensures !Quiet(db, r) ==> SameElsewhere(db, r.db, argv[1])
  {
    var key := argv[1];
    if key !in db.entries then
      if SetXx in p.flags then Unchanged(db, Null)
      else IncrWrite(db, argv, p, Fresh, Num(p.defaultValue), true, now)
    else
      var obj := db.entries[key].obj;
      if SetNx in p.flags then Unchanged(db, Null)
      else match ParseLongLong(obj.value)
        case None => Fail(db, NotInteger)
        case Some(value) =>
          if !VersionAccepted(p.flags, Num(p.version), obj.version) then Fail(db, VersionError)
          else IncrWrite(db, argv, p, obj, value, false, now)
  }

  /**
    The arithmetic and write half of EXINCRBY. `value` is the current number
    (the default on a fresh key); with DEF on a fresh key neither the check nor
    the addition happens.
   */
  function IncrWrite(db: Db, argv: seq<string>, p: Parsed, obj: TairObj, value: int, isNew: bool, now: int): (r: Outcome)
    requires Valid(db) && |argv| >= 3 && ParseLongLong(argv[2]).Some?
    requires 0 <= Num(p.version)
    ensures Valid(r.db)
    ensures r.reply.Err? ==> Quiet(db, r)
    ensures !r.reply.Err? ==> SameElsewhere(db, r.db, argv[1])
  {
    var key := argv[1];
    var incr := ParseLongLong(argv[2]).value;
    var skip := SetWithDef in p.flags && isNew;
    if !skip && IncrRejected(value, incr, NumOpt(p.min), NumOpt(p.max)) then Fail(db, OverflowError)
    else
      var sum := if skip then value else value + incr;
      IncrStore(db, key, p, obj, if SetNoNegative in p.flags && sum < 0 then 0 else sum, now)
  }

  /** EXINCRBY's write: store the decimal text of `result`, advance the version, apply the TTL. */
  function IncrStore(db: Db, key: string, p: Parsed, obj: TairObj, result: int, now: int): (r: Outcome)
    requires Valid(db) && 0 <= Num(p.version)
    ensures Valid(r.db) && SameElsewhere(db, r.db, key)
  {
    var stored := TairObj(NewVersion(obj.version, p.flags, Num(p.version)), obj.flags, FormatLongLong(result));
    var ttl := TtlActionOf(p.expire, p.flags, now);
    var cmd := ExSetForm(key, stored.value, stored.version, ReplicatedDeadline(ttl, now), None, ttl.Retain?);
    Outcome(if ReturnWithVer in p.flags then Arr([Int(result), Int(ToSigned(stored.version))]) else Int(result),
            Install(db, key, Tair(stored), ttl, now), [cmd])
  }

  // ---------------------------------------------------------------- EXSETVER

  /** `EXSETVER key version`: overwrite the version of an existing object; 0 on an absent key. */
  function ExSetVer(db: Db, argv: seq<string>): (r: Outcome)
    requires Valid(db)
    ensures Confined(db, argv, r)
  {
    if |argv| != 3 then Fail(db, WrongArity)
    else if argv[1] !in db.entries then Unchanged(db, Int(0))
    else match db.entries[argv[1]]
      case Tair(obj) =>
        (match ParseLongLong(argv[2])
         case None => Fail(db, SyntaxError)
         case Some(v) =>
           if v <= 0 then Fail(db, SyntaxError)
           else Outcome(Int(1), Install(db, argv[1], Tair(obj.(version := v)), Retain, 0), [argv]))
      case _ => Fail(db, WrongType)
  }

  // ---------------------------------------------------------------- EXCAS

  /** `EXCAS key value version [EX|EXAT|PX|PXAT t] [KEEPTTL]`: write only at exactly that version. */
  function ExCas(db: Db, argv: seq<string>, now: int): (r: Outcome)
    requires Valid(db)
    ensures Confined(db, argv, r)
  {
    if |argv| < 4 then Fail(db, WrongArity)
    else match ParseSpec(argv, 4, ExpireSlots, CasAllow)
      case None => Fail(db, SyntaxError)
      case Some(p) =>
        if BadNum(p.expire) then Fail(db, SyntaxError)
        else match ParseLongLong(argv[3])
          case None => Fail(db, VersionNotInteger)
          case Some(version) =>
            if (p.expire.Some? && Num(p.expire) <= 0) || version < 0 then Fail(db, SyntaxError)
            else if argv[1] !in db.entries then Unchanged(db, Int(-1))
            else match db.entries[argv[1]]
              case Tair(obj) =>
                if obj.version != version then
                  Unchanged(db, Arr([StaleVersion, Bulk(obj.value), Int(ToSigned(obj.version))]))
                else
                  var key := argv[1];
                  var stored := TairObj(Bump(obj.version), obj.flags, argv[2]);
                  var ttl := TtlActionOf(p.expire, p.flags, now);
                  var cmd := ExSetForm(key, argv[2], stored.version, ReplicatedDeadline(ttl, now), None, ttl.Retain?);
                  Outcome(Arr([Status("OK"), Status(""), Int(ToSigned(stored.version))]),
                          Install(db, key, Tair(stored), ttl, now), [cmd])
              case _ => Fail(db, WrongType)
  }

  // ---------------------------------------------------------------- EXCAD

  /**
    `EXCAD key version`: delete only at exactly that version. The argument is a
    `long long` compared with the `uint64_t` version, so a negative one is taken modulo 2^64.
   */
  function ExCad(db: Db, argv: seq<string>): (r: Outcome)
    requires Valid(db)
    ensures Confined(db, argv, r)
  {
    if |argv| != 3 then Fail(db, WrongArity)
    else if argv[1] in db.entries && !db.entries[argv[1]].Tair? then Fail(db, WrongType)
    else match ParseLongLong(argv[2])
      case None => Fail(db, SyntaxError)
      case Some(version) =>
        if argv[1] !in db.entries then Unchanged(db, Int(-1))
        else if db.entries[argv[1]].obj.version != version % (MaxUint64 + 1) then Unchanged(db, Int(0))
        else Outcome(Int(1), Delete(db, argv[1]), [DelForm(argv[1])])
  }

  // ---------------------------------------------------------------- CAD, CAS

  /** `CAD key value`: delete a plain string only if it holds exactly `value`. */
  function Cad(db: Db, argv: seq<string>): (r: Outcome)
    requires Valid(db)
    ensures Confined(db, argv, r)
  {
    if |argv| != 3 then Fail(db, WrongArity)
    else if argv[1] !in db.entries then Unchanged(db, Int(-1))
    else match db.entries[argv[1]]
      case Plain(s) =>
        if s != argv[2] then Unchanged(db, Int(0))
        else Outcome(Int(1), Delete(db, argv[1]), [DelForm(argv[1])])
      case _ => Fail(db, WrongType)
  }

  /** `CAS key old new [EX|EXAT|PX|PXAT t] [KEEPTTL]`: replace a plain string only if it holds exactly `old`. */
  function Cas(db: Db, argv: seq<string>, now: int): (r: Outcome)
    requires Valid(db)
    ensures Confined(db, argv, r)
  {
    if |argv| < 4 then Fail(db, WrongArity)
    else match ParseSpec(argv, 4, ExpireSlots, CasAllow)
      case None => Fail(db, SyntaxError)
      case Some(p) =>
        if BadNum(p.expire) || (p.expire.Some? && Num(p.expire) <= 0) then Fail(db, SyntaxError)
        else if argv[1] !in db.entries then Unchanged(db, Int(-1))
        else match db.entries[argv[1]]
          case Plain(s) =>
            if s != argv[2] then Unchanged(db, Int(0))
            else
              var key := argv[1];
              var ttl := TtlActionOf(p.expire, p.flags, now);
              Outcome(Int(1), Install(db, key, Plain(argv[3]), ttl, now),
                      [SetForm(key, argv[3])]
                      + (if ttl.ExpireIn? then [PexpireAtForm(key, now + ttl.ms)] else []))
          case _ => Fail(db, WrongType)
  }

  /**
    CAS as the code runs on the host: `RedisModule_StringSet` drops the key's
    deadline before the TTL step, so the KEEPTTL branch has nothing to keep.
   */
  function CasAsWritten(db: Db, argv: seq<string>, now: int): (r: Outcome)
    requires Valid(db)
    ensures Confined(db, argv, r)
  {
    if |argv| < 4 then Fail(db, WrongArity)
    else match ParseSpec(argv, 4, ExpireSlots, CasAllow)
      case None => Fail(db, SyntaxError)
      case Some(p) =>
        if BadNum(p.expire) || (p.expire.Some? && Num(p.expire) <= 0) then Fail(db, SyntaxError)
        else if argv[1] !in db.entries then Unchanged(db, Int(-1))
        else match db.entries[argv[1]]
          case Plain(s) =>
            if s != argv[2] then Unchanged(db, Int(0))
            else
              var key := argv[1];
              var replaced := HostStringSet(db, key, argv[3]);
              var ttl := TtlActionOf(p.expire, p.flags, now);
              Outcome(Int(1), Db(replaced.entries, ApplyTtl(replaced.expires, key, ttl, now)),
                      [SetForm(key, argv[3])]
                      + (if ttl.ExpireIn? then [PexpireAtForm(key, now + ttl.ms)] else []))
          case _ => Fail(db, WrongType)
  }

  // ---------------------------------------------------------------- EXAPPEND, EXPREPEND

  /**
    `EXAPPEND key value [NX|XX] [VER|ABS v]` (`atFront` false) and `EXPREPEND`
    (`atFront` true). On an existing key NX is tested before the type, so NX
    on a key of another type replies null. The TTL is left as it is.
   */
  function ExConcat(db: Db, argv: seq<string>, atFront: bool): (r: Outcome)
    requires Valid(db)
    ensures Confined(db, argv, r)
  {
    if |argv| < 3 then Fail(db, WrongArity)
    else match ParseSpec(argv, 3, AppendSlots, AppendAllow)
      case None => Fail(db, SyntaxError)
      case Some(p) =>
        if BadNum(p.version) || Num(p.version) < 0 then Fail(db, SyntaxError)
        else
          var key := argv[1];
          if key !in db.entries then
            if SetXx in p.flags then Unchanged(db, Null)
            else ConcatWrite(db, argv, p, TairObj(0, 0, argv[2]))
          else if SetNx in p.flags then Unchanged(db, Null)
          else match db.entries[key]
            case Tair(obj) =>
              if !VersionAccepted(p.flags, Num(p.version), obj.version) then Fail(db, VersionError)
              else ConcatWrite(db, argv, p,
                               obj.(value := if atFront then argv[2] + obj.value else obj.value + argv[2]))
            case _ => Fail(db, WrongType)
  }

  /** Store the joined payload with the advanced version; the command is replicated as given. */
  function ConcatWrite(db: Db, argv: seq<string>, p: Parsed, obj: TairObj): (r: Outcome)
    requires Valid(db) && |argv| >= 2 && 0 <= Num(p.version)
    ensures Valid(r.db) && SameElsewhere(db, r.db, argv[1])
  {
    var stored := obj.(version := NewVersion(obj.version, p.flags, Num(p.version)));
    Outcome(Int(ToSigned(stored.version)), Install(db, argv[1], Tair(stored), Retain, 0), [argv])
  }

  function ExAppend(db: Db, argv: seq<string>): (r: Outcome)
    requires Valid(db)
    ensures Confined(db, argv, r)
  {
    ExConcat(db, argv, false)
  }

  function ExPrepend(db: Db, argv: seq<string>): (r: Outcome)
    requires Valid(db)
    ensures Confined(db, argv, r)
  {
    ExConcat(db, argv, true)
  }

  // ---------------------------------------------------------------- EXGAE

  /** A successful EXGAE parse always has an expiry: the only tokens it allows are EX, EXAT, PX and PXAT with their values. */
  lemma GaeParseHasExpire(argv: seq<string>)
    requires |argv| >= 4 && ParseSpec(argv, 2, ExpireSlots, GaeAllow).Some?
    ensures ParseSpec(argv, 2, ExpireSlots, GaeAllow).value.expire.Some?
  {
    var items := LexFrom(argv, 2, ExpireSlots).value;
    LexFirst(argv, 2, ExpireSlots);
    BitsContainEach(items, 0);
    var o := items[0];
    ExpiryOnlyOption(o);
    ValuesMatchBits(items);
  }

  /** An option whose bits are all within EXGAE's mask is an expiry. */
  lemma ExpiryOnlyOption(o: Opt)
    requires Bit(o) <= GaeAllow
    ensures SetEx in Bit(o) || SetPx in Bit(o)
  {
  }

  /** `EXGAE key EX|EXAT|PX|PXAT t`: read the object and set its TTL; the options start at `argv[2]`. */
  function ExGae(db: Db, argv: seq<string>, now: int): (r: Outcome)
    requires Valid(db)
    ensures Confined(db, argv, r)
  {
    if |argv| < 4 then Fail(db, WrongArity)
    else match ParseSpec(argv, 2, ExpireSlots, GaeAllow)
      case None => Fail(db, SyntaxError)
      case Some(p) =>
        GaeParseHasExpire(argv);
        if BadNum(p.expire) || Num(p.expire) <= 0 then Fail(db, SyntaxError)
        else if argv[1] !in db.entries then Unchanged(db, Null)
        else match db.entries[argv[1]]
          case Tair(obj) =>
            var ttl := ExpireIn(TtlMillis(Num(p.expire), p.flags, now));
            Outcome(Arr([Bulk(obj.value), Int(ToSigned(obj.version)), Int(obj.flags)]),
                    Install(db, argv[1], Tair(obj), ttl, now), [argv])
          case _ => Fail(db, WrongType)
  }
}
