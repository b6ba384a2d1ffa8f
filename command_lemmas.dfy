/**
  Properties of the commands: the NX/XX veto and the version rule of the
  writing commands, the compare-and-set / compare-and-delete cases, and what
  append and prepend store.
 */
module CommandLemmas {
  import opened Optional
  import opened Decimal
  import opened ExFlags
  import opened ExFlagsLemmas
  import opened Keyspace
  import opened Replication
  import opened Commands

  /**
    What every successful versioned write guarantees: NX only writes an absent
    key and XX only an existing one; an existing entry is an object whose
    version passed the `VER` test; the new version is the `ABS` value, or the
    old one (0 for a fresh object) plus one.
   */
  ghost predicate WriteRule(db: Db, r: Outcome, key: string, p: Parsed) {
    && key in r.db.entries && r.db.entries[key].Tair?
    && (SetNx in p.flags ==> key !in db.entries)
    && (SetXx in p.flags ==> key in db.entries)
    && (key in db.entries ==> db.entries[key].Tair? && VersionAccepted(p.flags, Num(p.version), db.entries[key].obj.version))
    && r.db.entries[key].obj.version ==
         (if SetWithAbsVer in p.flags then Num(p.version)
          else Bump(if key in db.entries then db.entries[key].obj.version else 0))
  }

  /**
    The flags a write leaves when it is given no FLAGS value: those of the
    existing object, or 0 for a freshly created one.
   */
  ghost predicate FlagsKept(db: Db, r: Outcome, key: string) {
    && key in r.db.entries && r.db.entries[key].Tair?
    && (key in db.entries ==> db.entries[key].Tair?)
    && r.db.entries[key].obj.flags == (if key in db.entries then db.entries[key].obj.flags else 0)
  }

  /** The TTL a successful write leaves: set from the expiry argument, kept with KEEPTTL, cleared otherwise. */
  ghost predicate TtlRule(db: Db, r: Outcome, key: string, p: Parsed, now: int) {
    && (p.expire.Some? ==> key in r.db.expires && r.db.expires[key] == now + TtlMillis(Num(p.expire), p.flags, now))
    && (p.expire.None? && SetKeepTtl !in p.flags ==> key !in r.db.expires)
    && (p.expire.None? && SetKeepTtl in p.flags ==> r.db.expires == db.expires)
  }

  // ---------------------------------------------------------------- EXSET

  /** The arguments of EXSET pass every check made before the key is looked up. */
  ghost predicate ExSetArgsOk(argv: seq<string>) {
    && |argv| >= 3
    && ParseSpec(argv, 3, ExSetSlots, ExSetAllow).Some?
    && var p := ParseSpec(argv, 3, ExSetSlots, ExSetAllow).value;
    && !BadNum(p.expire) && !BadNum(p.version) && !BadNum(p.flagsArg)
    && !(p.expire.Some? && Num(p.expire) <= 0) && 0 <= Num(p.version) && 0 <= Num(p.flagsArg) <= MaxUint32
  }

  /** A successful EXSET stores the value under the version rule, the TTL rule and the FLAGS argument. */
  lemma ExSetSuccess(db: Db, argv: seq<string>, now: int)
    requires Valid(db) && ExSet(db, argv, now).propagated != []
    ensures ExSetArgsOk(argv)
    ensures var p := ParseSpec(argv, 3, ExSetSlots, ExSetAllow).value;
      var r := ExSet(db, argv, now);
      && WriteRule(db, r, argv[1], p)
      && TtlRule(db, r, argv[1], p, now)
      && r.db.entries[argv[1]].obj.value == argv[2]
      && (SetWithFlags in p.flags ==> r.db.entries[argv[1]].obj.flags == Num(p.flagsArg))
      && (SetWithFlags !in p.flags ==> FlagsKept(db, r, argv[1]))
      && r.reply == (if ReturnWithVer in p.flags then Int(ToSigned(r.db.entries[argv[1]].obj.version)) else Status("OK"))
  {
  }

  /**
    With valid arguments, EXSET on an existing object fails with the version
    error, changing nothing, exactly when `VER v` names a non-zero version other
    than the stored one (and NX does not veto first).
   */
  lemma ExSetVersionMismatch(db: Db, argv: seq<string>, now: int)
    requires Valid(db) && ExSetArgsOk(argv)
    requires argv[1] in db.entries && db.entries[argv[1]].Tair?
    requires SetNx !in ParseSpec(argv, 3, ExSetSlots, ExSetAllow).value.flags
    ensures var p := ParseSpec(argv, 3, ExSetSlots, ExSetAllow).value;
      var r := ExSet(db, argv, now);
      (r.reply == Err(VersionError)) <==> !VersionAccepted(p.flags, Num(p.version), db.entries[argv[1]].obj.version)
    ensures ExSet(db, argv, now).reply == Err(VersionError) ==> Quiet(db, ExSet(db, argv, now))
  {
  }

  /** A plain EXSET (no ABS) of an absent key creates the object at version 1. */
  lemma ExSetFreshVersionOne(db: Db, argv: seq<string>, now: int)
    requires Valid(db) && ExSetArgsOk(argv) && argv[1] !in db.entries
    requires SetXx !in ParseSpec(argv, 3, ExSetSlots, ExSetAllow).value.flags
    requires SetWithAbsVer !in ParseSpec(argv, 3, ExSetSlots, ExSetAllow).value.flags
    ensures ExSet(db, argv, now).db.entries[argv[1]] == Tair(TairObj(1, 0, argv[2])) || SetWithFlags in ParseSpec(argv, 3, ExSetSlots, ExSetAllow).value.flags
    ensures ExSet(db, argv, now).db.entries[argv[1]].obj.version == 1
  {
  }

  /**
    With valid arguments, EXSET replies null exactly when NX meets an existing
    object or XX meets an absent key, and then changes nothing.
   */
  lemma ExSetVeto(db: Db, argv: seq<string>, now: int)
    requires Valid(db) && ExSetArgsOk(argv)
    ensures var p := ParseSpec(argv, 3, ExSetSlots, ExSetAllow).value;
      var key := argv[1];
      var vetoed := (SetNx in p.flags && key in db.entries && db.entries[key].Tair?)
                    || (SetXx in p.flags && key !in db.entries);
      && (ExSet(db, argv, now).reply == Null <==> vetoed)
      && (vetoed ==> ExSet(db, argv, now) == Unchanged(db, Null))
  {
  }

  // ---------------------------------------------------------------- EXGET

  /** EXGET after a successful EXSET reads back the value written and its version, and the flags with WITHFLAGS. */
  lemma ExGetAfterExSet(db: Db, argv: seq<string>, now: int, r: Outcome)
    requires Valid(db) && r == ExSet(db, argv, now) && r.propagated != []
    ensures |argv| >= 3 && argv[1] in r.db.entries && r.db.entries[argv[1]].Tair?
    ensures var obj := r.db.entries[argv[1]].obj;
      && ExGet(r.db, ["EXGET", argv[1]]).reply == Arr([Bulk(argv[2]), Int(ToSigned(obj.version))])
      && ExGet(r.db, ["EXGET", argv[1], "withflags"]).reply == Arr([Bulk(argv[2]), Int(ToSigned(obj.version)), Int(obj.flags)])
  {
    ExSetSuccess(db, argv, now);
    assert r.db.entries[argv[1]].obj.value == argv[2];
    ExGetStored(r.db, argv[1], r.db.entries[argv[1]].obj);
  }

  lemma ExGetStored(db: Db, key: string, obj: TairObj)
    requires key in db.entries && db.entries[key] == Tair(obj)
    ensures ExGet(db, ["EXGET", key]).reply == Arr([Bulk(obj.value), Int(ToSigned(obj.version))])
    ensures ExGet(db, ["EXGET", key, "withflags"]).reply == Arr([Bulk(obj.value), Int(ToSigned(obj.version)), Int(obj.flags)])
  {
    ExGetPlain(db, key);
    ExGetWithFlags(db, key);
  }

  lemma ExGetPlain(db: Db, key: string)
    requires key in db.entries && db.entries[key].Tair?
    ensures ExGet(db, ["EXGET", key]).reply
         == Arr([Bulk(db.entries[key].obj.value), Int(ToSigned(db.entries[key].obj.version))])
  {
    ExGetCases(db, key, false);
    assert ["EXGET", key] + [] == ["EXGET", key];
  }

  lemma ExGetWithFlags(db: Db, key: string)
    requires key in db.entries && db.entries[key].Tair?
    ensures ExGet(db, ["EXGET", key, "withflags"]).reply
         == Arr([Bulk(db.entries[key].obj.value), Int(ToSigned(db.entries[key].obj.version)), Int(db.entries[key].obj.flags)])
  {
    ExGetCases(db, key, true);
    assert ["EXGET", key] + ["withflags"] == ["EXGET", key, "withflags"];
  }

  /** EXGET's replies: Null on an absent key, WRONGTYPE on another type, otherwise value and version (and flags). */
  lemma ExGetCases(db: Db, key: string, withFlags: bool)
    ensures var r := ExGet(db, ["EXGET", key] + (if withFlags then ["withflags"] else []));
      && (key !in db.entries ==> r.reply == Null)
      && (key in db.entries && !db.entries[key].Tair? ==> r.reply == Err(WrongType))
      && (key in db.entries && db.entries[key].Tair? ==>
            var obj := db.entries[key].obj;
            r.reply == Arr([Bulk(obj.value), Int(ToSigned(obj.version))] + (if withFlags then [Int(obj.flags)] else [])))
  {
    var argv := ["EXGET", key] + (if withFlags then ["withflags"] else []);
    assert |argv| == (if withFlags then 3 else 2);
    assert argv[1] == key;
    if withFlags {
      assert argv[2] == "withflags";
      assert CaseInsensitiveEquals(argv[2], "withflags");
    }
  }

  // ---------------------------------------------------------------- EXINCRBY

  /** The code's overflow test means: the sum leaves the signed 64-bit range, or crosses a given MIN or MAX. */
  lemma IncrRejectedMeaning(value: int, incr: int, min: Option<int>, max: Option<int>)
    requires InInt64(value) && InInt64(incr)
    ensures IncrRejected(value, incr, min, max) <==>
      || !InInt64(value + incr)
      || (max.Some? && value + incr > max.value)
      || (min.Some? && value + incr < min.value)
  {
  }

  /** NONEGATIVE: a negative result is stored as 0. */
  function Clamp(n: int, flags: set<Flag>): int {
    if SetNoNegative in flags && n < 0 then 0 else n
  }

  /**
    A successful EXINCRBY stores the decimal text of its result, under the
    version and TTL rules. On a fresh key with DEF the result is the default
    (no addition and no bounds check); otherwise it is the current number (0 on
    a fresh key) plus the increment, which is inside the 64-bit range and inside
    MIN and MAX. NONEGATIVE then clamps it to 0.
   */
  lemma IncrSuccess(db: Db, argv: seq<string>, now: int)
    requires Valid(db) && ExIncrBy(db, argv, now).propagated != []
    ensures |argv| >= 3 && ParseSpec(argv, 3, IncrSlots, IncrAllow).Some? && ParseLongLong(argv[2]).Some?
    ensures var p := ParseSpec(argv, 3, IncrSlots, IncrAllow).value;
      var key := argv[1];
      var incr := ParseLongLong(argv[2]).value;
      var r := ExIncrBy(db, argv, now);
      && WriteRule(db, r, key, p)
      && TtlRule(db, r, key, p, now)
      && FlagsKept(db, r, key)
      && (key in db.entries ==> ParseLongLong(db.entries[key].obj.value).Some?)
      && exists result: int ::
           && r.db.entries[key].obj.value == FormatLongLong(result)
           && r.reply == (if ReturnWithVer in p.flags then Arr([Int(result), Int(ToSigned(r.db.entries[key].obj.version))]) else Int(result))
           && (if key !in db.entries && SetWithDef in p.flags then result == Clamp(Num(p.defaultValue), p.flags)
               else
                 var base := if key in db.entries then ParseLongLong(db.entries[key].obj.value).value else 0;
                 && InInt64(base + incr)
                 && (p.max.Some? ==> base + incr <= Num(p.max))
                 && (p.min.Some? ==> base + incr >= Num(p.min))
                 && result == Clamp(base + incr, p.flags))
  {
    IncrReachesOnKey(db, argv, now);
    var p := ParseSpec(argv, 3, IncrSlots, IncrAllow).value;
    IncrOnKeySuccess(db, argv, p, now);
  }

  /** The same, stated about the key-dependent half of EXINCRBY. */
  lemma IncrOnKeySuccess(db: Db, argv: seq<string>, p: Parsed, now: int)
    requires Valid(db) && |argv| >= 3 && ParseSpec(argv, 3, IncrSlots, IncrAllow) == Some(p)
    requires ParseLongLong(argv[2]).Some? && 0 <= Num(p.version)
    requires argv[1] in db.entries ==> db.entries[argv[1]].Tair?
    requires IncrOnKey(db, argv, p, now).propagated != []
    ensures var key := argv[1];
      var incr := ParseLongLong(argv[2]).value;
      var r := IncrOnKey(db, argv, p, now);
      && WriteRule(db, r, key, p)
      && TtlRule(db, r, key, p, now)
      && FlagsKept(db, r, key)
      && (key in db.entries ==> ParseLongLong(db.entries[key].obj.value).Some?)
      && exists result: int ::
           && r.db.entries[key].obj.value == FormatLongLong(result)
           && r.reply == (if ReturnWithVer in p.flags then Arr([Int(result), Int(ToSigned(r.db.entries[key].obj.version))]) else Int(result))
           && (if key !in db.entries && SetWithDef in p.flags then result == Clamp(Num(p.defaultValue), p.flags)
               else
                 var base := if key in db.entries then ParseLongLong(db.entries[key].obj.value).value else 0;
                 && InInt64(base + incr)
                 && (p.max.Some? ==> base + incr <= Num(p.max))
                 && (p.min.Some? ==> base + incr >= Num(p.min))
                 && result == Clamp(base + incr, p.flags))
  {
    var key := argv[1];
    var r := IncrOnKey(db, argv, p, now);
    var result;
    if key !in db.entries {
      assert r == IncrWrite(db, argv, p, Fresh, Num(p.defaultValue), true, now);
      result := IncrWriteSuccess(db, argv, p, Fresh, Num(p.defaultValue), true, now);
      if SetWithDef !in p.flags {
        ValuesMatchBitsFor(argv, p);
      }
    } else {
      var obj := db.entries[key].obj;
      var value := ParseLongLong(obj.value).value;
      assert r == IncrWrite(db, argv, p, obj, value, false, now);
      result := IncrWriteSuccess(db, argv, p, obj, value, false, now);
    }
    assert r.db.entries[key].obj.value == FormatLongLong(result);
  }

  /** What a write of EXINCRBY that replicates stores, returning the number it stores. */
  lemma IncrWriteSuccess(db: Db, argv: seq<string>, p: Parsed, obj: TairObj, value: int, isNew: bool, now: int)
    returns (result: int)
    requires Valid(db) && |argv| >= 3 && ParseLongLong(argv[2]).Some?
    requires 0 <= Num(p.version) && InInt64(value)
    requires IncrWrite(db, argv, p, obj, value, isNew, now).propagated != []
    ensures var r := IncrWrite(db, argv, p, obj, value, isNew, now);
      var incr := ParseLongLong(argv[2]).value;
      var version := NewVersion(obj.version, p.flags, Num(p.version));
      && r.db.entries[argv[1]] == Tair(TairObj(version, obj.flags, FormatLongLong(result)))
      && r.reply == (if ReturnWithVer in p.flags then Arr([Int(result), Int(ToSigned(version))]) else Int(result))
      && TtlRule(db, r, argv[1], p, now)
      && (if SetWithDef in p.flags && isNew then result == Clamp(value, p.flags)
          else
            && InInt64(value + incr)
            && (p.max.Some? ==> value + incr <= Num(p.max))
            && (p.min.Some? ==> value + incr >= Num(p.min))
            && result == Clamp(value + incr, p.flags))
  {
    var incr := ParseLongLong(argv[2]).value;
    var skip := SetWithDef in p.flags && isNew;
    if !skip {
      IncrRejectedMeaning(value, incr, NumOpt(p.min), NumOpt(p.max));
    }
    var sum := if skip then value else value + incr;
    result := Clamp(sum, p.flags);
    assert IncrWrite(db, argv, p, obj, value, isNew, now) == IncrStore(db, argv[1], p, obj, result, now);
    IncrStoreFacts(db, argv[1], p, obj, result, now);
  }

  /** EXINCRBY's write stores the number's text under the new version and keeps the TTL rule. */
  lemma IncrStoreFacts(db: Db, key: string, p: Parsed, obj: TairObj, result: int, now: int)
    requires Valid(db) && 0 <= Num(p.version)
    ensures var r := IncrStore(db, key, p, obj, result, now);
      var version := NewVersion(obj.version, p.flags, Num(p.version));
      && r.db.entries[key] == Tair(TairObj(version, obj.flags, FormatLongLong(result)))
      && r.reply == (if ReturnWithVer in p.flags then Arr([Int(result), Int(ToSigned(version))]) else Int(result))
      && TtlRule(db, r, key, p, now)
  {
  }

  /** An EXINCRBY that replicates passed every check made before the key is looked up. */
  lemma IncrReachesOnKey(db: Db, argv: seq<string>, now: int)
    requires Valid(db) && ExIncrBy(db, argv, now).propagated != []
    ensures |argv| >= 3 && ParseSpec(argv, 3, IncrSlots, IncrAllow).Some?
    ensures var p := ParseSpec(argv, 3, IncrSlots, IncrAllow).value;
      && IncrCheck(argv, p).None?
      && (argv[1] in db.entries ==> db.entries[argv[1]].Tair?)
      && ExIncrBy(db, argv, now) == IncrOnKey(db, argv, p, now)
  {
  }

  /** Without DEF the parse reports no default value. */
  lemma ValuesMatchBitsFor(argv: seq<string>, p: Parsed)
    requires |argv| >= 3 && ParseSpec(argv, 3, IncrSlots, IncrAllow) == Some(p)
    ensures p.defaultValue.Some? <==> SetWithDef in p.flags
  {
    ExFlagsLemmas.ParsedValuesMatchFlags(argv, 3, IncrSlots, IncrAllow);
  }

  /** A failed increment installs nothing: an absent key stays absent. */
  lemma IncrOverflowInstallsNothing(db: Db, argv: seq<string>, now: int)
    requires Valid(db) && ExIncrBy(db, argv, now).reply == Err(OverflowError)
    ensures ExIncrBy(db, argv, now).db == db
    ensures |argv| >= 2 && argv[1] !in db.entries ==> argv[1] !in ExIncrBy(db, argv, now).db.entries
  {
  }

  /** The arguments of EXINCRBY pass every check made before the key's value is read. */
  ghost predicate IncrArgsOk(argv: seq<string>) {
    && |argv| >= 3
    && ParseSpec(argv, 3, IncrSlots, IncrAllow).Some?
    && IncrCheck(argv, ParseSpec(argv, 3, IncrSlots, IncrAllow).value).None?
  }

  /**
    With valid arguments, EXINCRBY replies null exactly when NX meets an
    existing object or XX meets an absent key, and then changes nothing.
   */
  lemma IncrVeto(db: Db, argv: seq<string>, now: int)
    requires Valid(db) && IncrArgsOk(argv)
    ensures var p := ParseSpec(argv, 3, IncrSlots, IncrAllow).value;
      var key := argv[1];
      var vetoed := (SetNx in p.flags && key in db.entries && db.entries[key].Tair?)
                    || (SetXx in p.flags && key !in db.entries);
      && (ExIncrBy(db, argv, now).reply == Null <==> vetoed)
      && (vetoed ==> ExIncrBy(db, argv, now) == Unchanged(db, Null))
  {
  }

  /** `base + incr` leaves the signed 64-bit range or crosses a supplied MIN or MAX. */
  ghost predicate IncrOutOfBounds(base: int, incr: int, p: Parsed) {
    || !InInt64(base + incr)
    || (p.max.Some? && base + incr > Num(p.max))
    || (p.min.Some? && base + incr < Num(p.min))
  }

  /**
    On an existing object whose value is a number and whose version passes the
    `VER` test, EXINCRBY fails with the overflow error exactly when the sum is
    out of range or out of bounds, and then changes nothing.
   */
  lemma IncrOverflowExisting(db: Db, argv: seq<string>, now: int)
    requires Valid(db) && IncrArgsOk(argv)
    requires argv[1] in db.entries && db.entries[argv[1]].Tair?
    requires ParseLongLong(db.entries[argv[1]].obj.value).Some?
    requires var p := ParseSpec(argv, 3, IncrSlots, IncrAllow).value;
      SetNx !in p.flags && VersionAccepted(p.flags, Num(p.version), db.entries[argv[1]].obj.version)
    ensures var p := ParseSpec(argv, 3, IncrSlots, IncrAllow).value;
      var over := IncrOutOfBounds(ParseLongLong(db.entries[argv[1]].obj.value).value, ParseLongLong(argv[2]).value, p);
      && (ExIncrBy(db, argv, now).reply == Err(OverflowError) <==> over)
      && (over ==> ExIncrBy(db, argv, now) == Unchanged(db, Err(OverflowError)))
  {
    var p := ParseSpec(argv, 3, IncrSlots, IncrAllow).value;
    IncrRejectedMeaning(ParseLongLong(db.entries[argv[1]].obj.value).value, ParseLongLong(argv[2]).value,
                        NumOpt(p.min), NumOpt(p.max));
  }

  /**
    On an absent key without XX, EXINCRBY fails with the overflow error exactly
    when there is no DEF and `0 + incr` crosses MIN or MAX; with DEF no check
    is made. On that error nothing changes and no object is installed.
   */
  lemma IncrOverflowFresh(db: Db, argv: seq<string>, now: int)
    requires Valid(db) && IncrArgsOk(argv) && argv[1] !in db.entries
    requires SetXx !in ParseSpec(argv, 3, IncrSlots, IncrAllow).value.flags
    ensures var p := ParseSpec(argv, 3, IncrSlots, IncrAllow).value;
      var over := SetWithDef !in p.flags && IncrOutOfBounds(0, ParseLongLong(argv[2]).value, p);
      && (ExIncrBy(db, argv, now).reply == Err(OverflowError) <==> over)
      && (over ==> ExIncrBy(db, argv, now) == Unchanged(db, Err(OverflowError)))
  {
    var p := ParseSpec(argv, 3, IncrSlots, IncrAllow).value;
    ValuesMatchBitsFor(argv, p);
    IncrRejectedMeaning(0, ParseLongLong(argv[2]).value, NumOpt(p.min), NumOpt(p.max));
  }

  /**
    On an existing object whose value is a number, EXINCRBY without NX fails
    with the version error exactly when `VER v` names a non-zero version other
    than the stored one, and then changes nothing.
   */
  lemma IncrVersionMismatch(db: Db, argv: seq<string>, now: int)
    requires Valid(db) && IncrArgsOk(argv)
    requires argv[1] in db.entries && db.entries[argv[1]].Tair?
    requires ParseLongLong(db.entries[argv[1]].obj.value).Some?
    requires SetNx !in ParseSpec(argv, 3, IncrSlots, IncrAllow).value.flags
    ensures var p := ParseSpec(argv, 3, IncrSlots, IncrAllow).value;
      var mismatch := !VersionAccepted(p.flags, Num(p.version), db.entries[argv[1]].obj.version);
      && (ExIncrBy(db, argv, now).reply == Err(VersionError) <==> mismatch)
      && (mismatch ==> ExIncrBy(db, argv, now) == Unchanged(db, Err(VersionError)))
  {
  }

  // ---------------------------------------------------------------- EXCAS, EXCAD

  /** The arguments of EXCAS pass every check made before the key is looked up. */
  ghost predicate ExCasArgsOk(argv: seq<string>) {
    && |argv| >= 4
    && ParseSpec(argv, 4, ExpireSlots, CasAllow).Some?
    && var p := ParseSpec(argv, 4, ExpireSlots, CasAllow).value;
    && !BadNum(p.expire) && !(p.expire.Some? && Num(p.expire) <= 0)
    && ParseLongLong(argv[3]).Some? && ParseLongLong(argv[3]).value >= 0
  }

  /**
    EXCAS with valid arguments: -1 on an absent key; on a version other than the
    stored one (0 included) the stale-version reply with the stored value and
    version and no change; on the exact version the new value at version + 1.
   */
  lemma ExCasCases(db: Db, argv: seq<string>, now: int)
    requires Valid(db) && ExCasArgsOk(argv)
    requires argv[1] in db.entries ==> db.entries[argv[1]].Tair?
    ensures var r := ExCas(db, argv, now);
      var key := argv[1];
      var version := ParseLongLong(argv[3]).value;
      var p := ParseSpec(argv, 4, ExpireSlots, CasAllow).value;
      && (key !in db.entries ==> r.reply == Int(-1) && Quiet(db, r))
      && (key in db.entries && db.entries[key].obj.version != version ==>
            var obj := db.entries[key].obj;
            r.reply == Arr([StaleVersion, Bulk(obj.value), Int(ToSigned(obj.version))]) && Quiet(db, r))
      && (key in db.entries && db.entries[key].obj.version == version ==>
            var obj := db.entries[key].obj;
            && r.db.entries[key] == Tair(TairObj(Bump(obj.version), obj.flags, argv[2]))
            && TtlRule(db, r, key, p, now)
            && r.reply == Arr([Status("OK"), Status(""), Int(ToSigned(Bump(obj.version)))]))
  {
  }

  /**
    EXCAD with a numeric version: -1 on an absent key, 0 on any other version,
    and on the exact version (the argument taken modulo 2^64) the key and its
    TTL are deleted and DEL is replicated.
   */
  lemma ExCadCases(db: Db, argv: seq<string>)
    requires Valid(db) && |argv| == 3 && ParseLongLong(argv[2]).Some?
    requires argv[1] in db.entries ==> db.entries[argv[1]].Tair?
    ensures var r := ExCad(db, argv);
      var key := argv[1];
      var version := ParseLongLong(argv[2]).value;
      && (key !in db.entries ==> r.reply == Int(-1) && Quiet(db, r))
      && (key in db.entries && db.entries[key].obj.version != version % (MaxUint64 + 1) ==> r.reply == Int(0) && Quiet(db, r))
      && (key in db.entries && db.entries[key].obj.version == version % (MaxUint64 + 1) ==>
            r.reply == Int(1) && key !in r.db.entries && key !in r.db.expires && r.propagated == [["DEL", key]])
  {
  }

  /** EXCAD's version 0 is not a wildcard: it deletes only an object whose version is 0. */
  lemma ExCadZeroIsExact(db: Db, key: string)
    requires Valid(db) && key in db.entries && db.entries[key].Tair? && db.entries[key].obj.version != 0
    ensures ExCad(db, ["EXCAD", key, "0"]).reply == Int(0)
  {
    assert ParseLongLong("0") == Some(0) by { ParseFormat(0); }
  }

  /** A negative EXCAD version is compared as its unsigned conversion: -1 names the largest version. */
  lemma ExCadNegativeWraps(db: Db, key: string)
    requires Valid(db) && key in db.entries && db.entries[key].Tair? && db.entries[key].obj.version == MaxUint64
    ensures ExCad(db, ["EXCAD", key, "-1"]).reply == Int(1)
  {
    assert ParseLongLong("-1") == Some(-1) by { ParseFormat(-1); }
  }

  // ---------------------------------------------------------------- CAS, CAD

  /** CAD on a plain string: -1 when absent, 0 when the value differs, otherwise delete and reply 1. */
  lemma CadCases(db: Db, argv: seq<string>)
    requires Valid(db) && |argv| == 3
    requires argv[1] in db.entries ==> db.entries[argv[1]].Plain?
    ensures var r := Cad(db, argv);
      var key := argv[1];
      && (key !in db.entries ==> r.reply == Int(-1) && Quiet(db, r))
      && (key in db.entries && db.entries[key].s != argv[2] ==> r.reply == Int(0) && Quiet(db, r))
      && (key in db.entries && db.entries[key].s == argv[2] ==>
            r.reply == Int(1) && key !in r.db.entries && r.propagated == [["DEL", key]])
  {
  }

  /** CAD and CAS refuse a versioned object: they only work on plain strings. */
  lemma CadCasRefuseObjects(db: Db, key: string, a: string, b: string, now: int)
    requires Valid(db) && key in db.entries && db.entries[key].Tair?
    ensures Cad(db, ["CAD", key, a]).reply == Err(WrongType)
    ensures Cas(db, ["CAS", key, a, b], now).reply == Err(WrongType)
  {
    assert LexFrom(["CAS", key, a, b], 4, ExpireSlots) == Some([]);
  }

  /**
    CAS with valid options on a plain string: -1 when absent, 0 when the value
    differs, otherwise the new value under the TTL rule, replicated as SET
    followed, when an expiry was given, by PEXPIREAT with the deadline.
   */
  lemma CasCases(db: Db, argv: seq<string>, now: int)
    requires Valid(db) && |argv| >= 4
    requires ParseSpec(argv, 4, ExpireSlots, CasAllow).Some?
    requires var p := ParseSpec(argv, 4, ExpireSlots, CasAllow).value;
      !BadNum(p.expire) && !(p.expire.Some? && Num(p.expire) <= 0)
    requires argv[1] in db.entries ==> db.entries[argv[1]].Plain?
    ensures var r := Cas(db, argv, now);
      var key := argv[1];
      var p := ParseSpec(argv, 4, ExpireSlots, CasAllow).value;
      && (key !in db.entries ==> r.reply == Int(-1) && Quiet(db, r))
      && (key in db.entries && db.entries[key].s != argv[2] ==> r.reply == Int(0) && Quiet(db, r))
      && (key in db.entries && db.entries[key].s == argv[2] ==>
            && r.reply == Int(1) && r.db.entries[key] == Plain(argv[3])
            && TtlRule(db, r, key, p, now)
            && r.propagated[0] == ["SET", key, argv[3]]
            && (p.expire.Some? <==> |r.propagated| == 2)
            && (p.expire.Some? ==> r.propagated[1] == ["PEXPIREAT", key, FormatLongLong(r.db.expires[key])]))
  {
  }

  /**
    CAS as it runs on the host differs from `Cas` only in the deadline: every
    failure is the same outcome; a success gives the same reply, entries and
    replicated lines; with an expiry the deadline is the same too, and without
    one the key is left with no deadline, even under KEEPTTL, where `Cas`
    keeps the old one.
   */
  lemma CasKeepTtlIneffective(db: Db, argv: seq<string>, now: int)
    requires Valid(db)
    ensures var r, w := Cas(db, argv, now), CasAsWritten(db, argv, now);
      && (r.propagated == [] ==> w == r)
      && (r.propagated != [] ==>
            && |argv| >= 4 && ParseSpec(argv, 4, ExpireSlots, CasAllow).Some?
            && var p := ParseSpec(argv, 4, ExpireSlots, CasAllow).value;
            && w.reply == r.reply && w.propagated == r.propagated && w.db.entries == r.db.entries
            && (p.expire.Some? ==> w.db.expires == r.db.expires)
            && (p.expire.None? ==> w.db.expires == db.expires - {argv[1]} && argv[1] !in w.db.expires)
            && (p.expire.None? && SetKeepTtl in p.flags ==> r.db.expires == db.expires))
  {
    if CasMatches(db, argv) {
      var p := ParseSpec(argv, 4, ExpireSlots, CasAllow).value;
      var key := argv[1];
      var ttl := TtlActionOf(p.expire, p.flags, now);
      CasOnMatch(db, argv, now);
      CasAsWrittenOnMatch(db, argv, now);
      var replaced := HostStringSet(db, key, argv[3]);
      if ttl.ExpireIn? {
        assert ApplyTtl(replaced.expires, key, ttl, now) == ApplyTtl(db.expires, key, ttl, now);
      }
    } else {
      CasFailuresAgree(db, argv, now);
    }
  }

  /** The arguments and the stored string let CAS reach its write. */
  ghost predicate CasMatches(db: Db, argv: seq<string>) {
    && |argv| >= 4 && ParseSpec(argv, 4, ExpireSlots, CasAllow).Some?
    && var p := ParseSpec(argv, 4, ExpireSlots, CasAllow).value;
    && !BadNum(p.expire) && !(p.expire.Some? && Num(p.expire) <= 0)
    && argv[1] in db.entries && db.entries[argv[1]] == Plain(argv[2])
  }

  lemma CasOnMatch(db: Db, argv: seq<string>, now: int)
    requires Valid(db) && CasMatches(db, argv)
    ensures var p := ParseSpec(argv, 4, ExpireSlots, CasAllow).value;
      var key := argv[1];
      var ttl := TtlActionOf(p.expire, p.flags, now);
      Cas(db, argv, now) == Outcome(Int(1), Install(db, key, Plain(argv[3]), ttl, now),
                                    [SetForm(key, argv[3])] + (if ttl.ExpireIn? then [PexpireAtForm(key, now + ttl.ms)] else []))
  {
  }

  lemma CasAsWrittenOnMatch(db: Db, argv: seq<string>, now: int)
    requires Valid(db) && CasMatches(db, argv)
    ensures var p := ParseSpec(argv, 4, ExpireSlots, CasAllow).value;
      var key := argv[1];
      var ttl := TtlActionOf(p.expire, p.flags, now);
      var replaced := HostStringSet(db, key, argv[3]);
      CasAsWritten(db, argv, now) == Outcome(Int(1), Db(replaced.entries, ApplyTtl(replaced.expires, key, ttl, now)),
                                             [SetForm(key, argv[3])] + (if ttl.ExpireIn? then [PexpireAtForm(key, now + ttl.ms)] else []))
  {
  }

  /** Short of the write, both readings of CAS give the same outcome, and it changes nothing. */
  lemma CasFailuresAgree(db: Db, argv: seq<string>, now: int)
    requires Valid(db) && !CasMatches(db, argv)
    ensures CasAsWritten(db, argv, now) == Cas(db, argv, now) && Cas(db, argv, now).propagated == []
  {
  }

  /**
    `CAS k a b KEEPTTL` on the plain string `k` = "a" with deadline 100: the
    corrected `Cas` keeps the deadline, the host run of the code drops it.
   */
  lemma CasKeepTtlLost(db: Db, argv: seq<string>)
    requires db == Db(map["k" := Plain("a")], map["k" := 100])
    requires argv == ["CAS", "k", "a", "b", "KEEPTTL"]
    ensures Cas(db, argv, 0).reply == Int(1) && CasAsWritten(db, argv, 0).reply == Int(1)
    ensures Cas(db, argv, 0).db.expires == map["k" := 100]
    ensures "k" !in CasAsWritten(db, argv, 0).db.expires
  {
    CasParseKeepTtl(argv);
    assert CasMatches(db, argv);
    CasOnMatch(db, argv, 0);
    CasAsWrittenOnMatch(db, argv, 0);
  }

  lemma CasParseKeepTtl(argv: seq<string>)
    requires |argv| == 5 && argv[4] == "KEEPTTL"
    ensures ParseSpec(argv, 4, ExpireSlots, CasAllow) == Some(Parsed({SetKeepTtl}, None, None, None, None, None, None))
  {
    assert argv[4][0] == 'K';
    assert Classify(argv[4], NextToken(argv, 4), ExpireSlots) == Some(KeepTtl);
    assert LexFrom(argv, 5, ExpireSlots) == Some([]);
    LexCons(argv, 4, ExpireSlots, KeepTtl, []);
    assert [KeepTtl] + [] == [KeepTtl];
    assert [KeepTtl][..0] == [];
    assert Bits([KeepTtl]) == {SetKeepTtl};
  }

  // ---------------------------------------------------------------- EXAPPEND, EXPREPEND

  /** The arguments of EXAPPEND/EXPREPEND pass every check made before the key is looked up. */
  ghost predicate ConcatArgsOk(argv: seq<string>) {
    && |argv| >= 3
    && ParseSpec(argv, 3, AppendSlots, AppendAllow).Some?
    && var p := ParseSpec(argv, 3, AppendSlots, AppendAllow).value;
    && !BadNum(p.version) && 0 <= Num(p.version)
  }

  /**
    EXAPPEND stores old ++ arg and EXPREPEND arg ++ old; on an absent key both
    store arg. The reply is the new version and the TTL is not touched.
   */
  lemma ConcatSuccess(db: Db, argv: seq<string>, atFront: bool)
    requires Valid(db) && ExConcat(db, argv, atFront).propagated != []
    ensures ConcatArgsOk(argv)
    ensures var p := ParseSpec(argv, 3, AppendSlots, AppendAllow).value;
      var r := ExConcat(db, argv, atFront);
      var key := argv[1];
      && WriteRule(db, r, key, p)
      && FlagsKept(db, r, key)
      && r.db.expires == db.expires
      && r.propagated == [argv]
      && r.reply == Int(ToSigned(r.db.entries[key].obj.version))
      && r.db.entries[key].obj.value ==
           (if key !in db.entries then argv[2]
            else if atFront then argv[2] + db.entries[key].obj.value
            else db.entries[key].obj.value + argv[2])
  {
  }

  /** NX is tested before the type: on a key of another type, NX replies null rather than the type error. */
  lemma ConcatNxBeforeType(db: Db, argv: seq<string>, atFront: bool)
    requires Valid(db) && ConcatArgsOk(argv) && argv[1] in db.entries
    requires SetNx in ParseSpec(argv, 3, AppendSlots, AppendAllow).value.flags
    ensures ExConcat(db, argv, atFront).reply == Null
  {
  }

  /** The same key holding another type, without NX, gives the type error. */
  lemma ConcatWrongType(db: Db, argv: seq<string>, atFront: bool)
    requires Valid(db) && ConcatArgsOk(argv) && argv[1] in db.entries && !db.entries[argv[1]].Tair?
    requires SetNx !in ParseSpec(argv, 3, AppendSlots, AppendAllow).value.flags
    ensures ExConcat(db, argv, atFront).reply == Err(WrongType)
  {
  }

  /**
    With valid arguments, EXAPPEND and EXPREPEND reply null exactly when XX
    meets an absent key or NX meets any existing key, and then change nothing.
   */
  lemma ConcatVeto(db: Db, argv: seq<string>, atFront: bool)
    requires Valid(db) && ConcatArgsOk(argv)
    ensures var p := ParseSpec(argv, 3, AppendSlots, AppendAllow).value;
      var key := argv[1];
      var vetoed := (SetXx in p.flags && key !in db.entries) || (SetNx in p.flags && key in db.entries);
      && (ExConcat(db, argv, atFront).reply == Null <==> vetoed)
      && (vetoed ==> ExConcat(db, argv, atFront) == Unchanged(db, Null))
  {
  }

  /**
    On an existing object and without NX, EXAPPEND and EXPREPEND fail with the
    version error exactly when `VER v` names a non-zero version other than the
    stored one, and then change nothing.
   */
  lemma ConcatVersionMismatch(db: Db, argv: seq<string>, atFront: bool)
    requires Valid(db) && ConcatArgsOk(argv)
    requires argv[1] in db.entries && db.entries[argv[1]].Tair?
    requires SetNx !in ParseSpec(argv, 3, AppendSlots, AppendAllow).value.flags
    ensures var p := ParseSpec(argv, 3, AppendSlots, AppendAllow).value;
      var mismatch := !VersionAccepted(p.flags, Num(p.version), db.entries[argv[1]].obj.version);
      && (ExConcat(db, argv, atFront).reply == Err(VersionError) <==> mismatch)
      && (mismatch ==> ExConcat(db, argv, atFront) == Unchanged(db, Err(VersionError)))
  {
  }

  // ---------------------------------------------------------------- EXGAE, EXSETVER

  /**
    A successful EXGAE leaves the object as it was, sets the key's deadline from
    its one expiry option under the EX/EXAT/PX/PXAT rule, replies value, version
    and flags, and replicates its own arguments.
   */
  lemma GaeSuccess(db: Db, argv: seq<string>, now: int)
    requires Valid(db) && ExGae(db, argv, now).propagated != []
    ensures |argv| >= 4 && argv[1] in db.entries && db.entries[argv[1]].Tair?
    ensures ParseSpec(argv, 2, ExpireSlots, GaeAllow).Some?
    ensures var p := ParseSpec(argv, 2, ExpireSlots, GaeAllow).value;
      var obj := db.entries[argv[1]].obj;
      && p.expire.Some? && ParseLongLong(p.expire.value).Some? && Num(p.expire) > 0
      && ExGae(db, argv, now)
         == Outcome(Arr([Bulk(obj.value), Int(ToSigned(obj.version)), Int(obj.flags)]),
                    Db(db.entries, db.expires[argv[1] := now + TtlMillis(Num(p.expire), p.flags, now)]), [argv])
  {
    GaeReaches(db, argv, now);
    var p := ParseSpec(argv, 2, ExpireSlots, GaeAllow).value;
    GaeInstall(db, argv[1], TtlMillis(Num(p.expire), p.flags, now), now);
  }

  /** Re-installing a key's own object with a deadline changes only that deadline. */
  lemma GaeInstall(db: Db, key: string, ms: int, now: int)
    requires Valid(db) && key in db.entries
    ensures Install(db, key, db.entries[key], ExpireIn(ms), now) == Db(db.entries, db.expires[key := now + ms])
  {
    assert db.entries[key := db.entries[key]] == db.entries;
  }

  /** An EXGAE that replicates passed every check and took the branch that installs the deadline. */
  lemma GaeReaches(db: Db, argv: seq<string>, now: int)
    requires Valid(db) && ExGae(db, argv, now).propagated != []
    ensures |argv| >= 4 && argv[1] in db.entries && db.entries[argv[1]].Tair?
    ensures ParseSpec(argv, 2, ExpireSlots, GaeAllow).Some?
    ensures var p := ParseSpec(argv, 2, ExpireSlots, GaeAllow).value;
      var obj := db.entries[argv[1]].obj;
      && p.expire.Some? && ParseLongLong(p.expire.value).Some? && Num(p.expire) > 0
      && ExGae(db, argv, now)
         == Outcome(Arr([Bulk(obj.value), Int(ToSigned(obj.version)), Int(obj.flags)]),
                    Install(db, argv[1], Tair(obj), ExpireIn(TtlMillis(Num(p.expire), p.flags, now)), now), [argv])
  {
  }

  /** EXSETVER sets the version to exactly the positive argument and touches neither the value nor the TTL. */
  lemma SetVerSuccess(db: Db, argv: seq<string>)
    requires Valid(db) && ExSetVer(db, argv).propagated != []
    ensures |argv| == 3 && argv[1] in db.entries && db.entries[argv[1]].Tair?
    ensures ParseLongLong(argv[2]).Some? && ParseLongLong(argv[2]).value > 0
    ensures var r := ExSetVer(db, argv);
      var obj := db.entries[argv[1]].obj;
      && r.db.entries[argv[1]] == Tair(obj.(version := ParseLongLong(argv[2]).value))
      && r.db.expires == db.expires
      && r.reply == Int(1)
  {
  }

  /** EXSETVER replies 0 exactly when it has two arguments and the key is absent, and then changes nothing. */
  lemma SetVerAbsent(db: Db, argv: seq<string>)
    requires Valid(db)
    ensures ExSetVer(db, argv).reply == Int(0) <==> |argv| == 3 && argv[1] !in db.entries
    ensures |argv| == 3 && argv[1] !in db.entries ==> ExSetVer(db, argv) == Unchanged(db, Int(0))
  {
  }

  /** The arguments of EXGAE pass every check made before the key is looked up. */
  ghost predicate GaeArgsOk(argv: seq<string>) {
    && |argv| >= 4
    && ParseSpec(argv, 2, ExpireSlots, GaeAllow).Some?
    && var p := ParseSpec(argv, 2, ExpireSlots, GaeAllow).value;
    && !BadNum(p.expire) && Num(p.expire) > 0
  }

  /** With valid arguments, EXGAE replies null exactly when the key is absent, and then changes nothing. */
  lemma GaeAbsent(db: Db, argv: seq<string>, now: int)
    requires Valid(db) && GaeArgsOk(argv)
    ensures ExGae(db, argv, now).reply == Null <==> argv[1] !in db.entries
    ensures argv[1] !in db.entries ==> ExGae(db, argv, now) == Unchanged(db, Null)
  {
  }
}
