/**
  Replaying the rewritten forms. An `EXSET ... ABS v [PXAT d] [KEEPTTL] [FLAGS f]`
  command, run on a replica or from the append-only file, installs exactly the
  object and deadline it names and rewrites to itself; so a replica in the
  master's state reaches the master's state, and an AOF rewrite reloads the
  object it was written from.
 */
module Replay {
  import opened Optional
  import opened Decimal
  import opened ExFlags
  import opened ExFlagsLemmas
  import opened Keyspace
  import opened Replication
  import opened Commands
  import CommandLemmas

  // ---------------------------------------------------------------- parsing the form

  lemma ClassifyAbs(token: string, next: string)
    requires token == "ABS"
    ensures Classify(token, Some(next), ExSetSlots) == Some(Abs(next))
  {
    assert token[0] == 'A';
  }

  lemma ClassifyPxAt(token: string, next: string)
    requires token == "PXAT"
    ensures Classify(token, Some(next), ExSetSlots) == Some(PxAt(next))
  {
    assert token[0] == 'P';
  }

  lemma ClassifyFlags(token: string, next: string)
    requires token == "FLAGS"
    ensures Classify(token, Some(next), ExSetSlots) == Some(Flags(next))
  {
  }

  lemma ClassifyKeepTtl(token: string, next: Option<string>)
    requires token == "KEEPTTL"
    ensures Classify(token, next, ExSetSlots) == Some(KeepTtl)
  {
  }

  /** The options of a rewritten form, in order, from the tokens of its values. */
  function Opts(v: string, d: Option<string>, keepTtl: bool, f: Option<string>): seq<Opt> {
    [Abs(v)]
    + (if d.Some? then [PxAt(d.value)] else [])
    + (if keepTtl then [KeepTtl] else [])
    + (if f.Some? then [Flags(f.value)] else [])
  }

  function DeadlineText(pxat: Option<int>): Option<string> {
    if pxat.Some? then Some(FormatLongLong(pxat.value)) else None
  }

  function FlagsText(flags: Option<u32>): Option<string> {
    if flags.Some? then Some(FormatLongLong(flags.value)) else None
  }

  lemma LexFlags(argv: seq<string>, k: nat, f: string)
    requires k + 2 == |argv| && argv[k] == "FLAGS" && argv[k + 1] == f
    ensures LexFrom(argv, k, ExSetSlots) == Some([Flags(f)])
  {
    ClassifyFlags(argv[k], f);
    assert LexFrom(argv, k + 2, ExSetSlots) == Some([]);
    LexCons(argv, k, ExSetSlots, Flags(f), []);
    assert [Flags(f)] + [] == [Flags(f)];
  }

  lemma LexKeepTtl(argv: seq<string>, j: nat, rest: seq<Opt>)
    requires j < |argv| && Classify(argv[j], NextToken(argv, j), ExSetSlots) == Some(KeepTtl)
    requires LexFrom(argv, j + 1, ExSetSlots) == Some(rest)
    ensures LexFrom(argv, j, ExSetSlots) == Some([KeepTtl] + rest)
  {
    assert Width(KeepTtl) == 1;
    LexCons(argv, j, ExSetSlots, KeepTtl, rest);
  }

  lemma LexPxAt(argv: seq<string>, j: nat, d: string, rest: seq<Opt>)
    requires j + 1 < |argv| && argv[j] == "PXAT" && argv[j + 1] == d && LexFrom(argv, j + 2, ExSetSlots) == Some(rest)
    ensures LexFrom(argv, j, ExSetSlots) == Some([PxAt(d)] + rest)
  {
    ClassifyPxAt(argv[j], d);
    LexCons(argv, j, ExSetSlots, PxAt(d), rest);
  }

  lemma LexAbs(argv: seq<string>, j: nat, v: string, rest: seq<Opt>)
    requires j + 1 < |argv| && argv[j] == "ABS" && argv[j + 1] == v && LexFrom(argv, j + 2, ExSetSlots) == Some(rest)
    ensures LexFrom(argv, j, ExSetSlots) == Some([Abs(v)] + rest)
  {
    ClassifyAbs(argv[j], v);
    LexCons(argv, j, ExSetSlots, Abs(v), rest);
  }

  /** An argument vector laid out as a rewritten form lexes (from index 3) to its options. */
  lemma LexFormTokens(cmd: seq<string>, v: string, d: Option<string>, keepTtl: bool, f: Option<string>)
    requires |cmd| == 5 + (if d.Some? then 2 else 0) + (if keepTtl then 1 else 0) + (if f.Some? then 2 else 0)
    requires cmd[3] == "ABS" && cmd[4] == v
    requires d.Some? ==> cmd[5] == "PXAT" && cmd[6] == d.value
    requires keepTtl ==> cmd[if d.Some? then 7 else 5] == "KEEPTTL"
    requires f.Some? ==> cmd[|cmd| - 2] == "FLAGS" && cmd[|cmd| - 1] == f.value
    ensures LexFrom(cmd, 3, ExSetSlots) == Some(Opts(v, d, keepTtl, f))
  {
    var rest := LexAfterVersion(cmd, d, keepTtl, f);
    LexAbs(cmd, 3, v, rest);
    OptsCons(v, d, keepTtl, f);
  }

  /** A rewritten form's options are ABS followed by the optional parts. */
  lemma OptsCons(v: string, d: Option<string>, keepTtl: bool, f: Option<string>)
    ensures Opts(v, d, keepTtl, f) == [Abs(v)] + ((if d.Some? then [PxAt(d.value)] else [])
                                                   + (if keepTtl then [KeepTtl] else [])
                                                   + (if f.Some? then [Flags(f.value)] else []))
  {
  }

  /** From index 5: the optional PXAT, then the rest. */
  lemma LexAfterVersion(cmd: seq<string>, d: Option<string>, keepTtl: bool, f: Option<string>)
    returns (rest: seq<Opt>)
    requires |cmd| == 5 + (if d.Some? then 2 else 0) + (if keepTtl then 1 else 0) + (if f.Some? then 2 else 0)
    requires d.Some? ==> cmd[5] == "PXAT" && cmd[6] == d.value
    requires keepTtl ==> cmd[if d.Some? then 7 else 5] == "KEEPTTL"
    requires f.Some? ==> cmd[|cmd| - 2] == "FLAGS" && cmd[|cmd| - 1] == f.value
    ensures LexFrom(cmd, 5, ExSetSlots) == Some(rest)
    ensures rest == (if d.Some? then [PxAt(d.value)] else [])
                    + (if keepTtl then [KeepTtl] else [])
                    + (if f.Some? then [Flags(f.value)] else [])
  {
    var j := 5 + (if d.Some? then 2 else 0);
    var tail := LexAfterExpiry(cmd, j, keepTtl, f);
    var c: seq<Opt> := if keepTtl then [KeepTtl] else [];
    var e: seq<Opt> := if f.Some? then [Flags(f.value)] else [];
    if d.Some? {
      LexPxAt(cmd, 5, d.value, tail);
      rest := [PxAt(d.value)] + tail;
      assert [PxAt(d.value)] + (c + e) == [PxAt(d.value)] + c + e;
    } else {
      rest := tail;
      assert [] + c + e == c + e;
    }
  }

  /** From the index after the expiry: the optional KEEPTTL, then the optional FLAGS. */
  lemma LexAfterExpiry(cmd: seq<string>, j: nat, keepTtl: bool, f: Option<string>)
    returns (rest: seq<Opt>)
    requires |cmd| == j + (if keepTtl then 1 else 0) + (if f.Some? then 2 else 0)
    requires keepTtl ==> cmd[j] == "KEEPTTL"
    requires f.Some? ==> cmd[|cmd| - 2] == "FLAGS" && cmd[|cmd| - 1] == f.value
    ensures LexFrom(cmd, j, ExSetSlots) == Some(rest)
    ensures rest == (if keepTtl then [KeepTtl] else []) + (if f.Some? then [Flags(f.value)] else [])
  {
    var k := j + (if keepTtl then 1 else 0);
    var tail: seq<Opt> := if f.Some? then [Flags(f.value)] else [];
    if f.Some? {
      LexFlags(cmd, k, f.value);
    } else {
      assert LexFrom(cmd, k, ExSetSlots) == Some([]);
    }
    if keepTtl {
      ClassifyKeepTtl(cmd[j], NextToken(cmd, j));
      LexKeepTtl(cmd, j, tail);
      rest := [KeepTtl] + tail;
    } else {
      rest := tail;
    }
  }

  /** The four parts of a rewritten form's options. */
  lemma OptsParts(v: string, d: Option<string>, keepTtl: bool, f: Option<string>)
    returns (a: seq<Opt>, b: seq<Opt>, c: seq<Opt>, e: seq<Opt>)
    ensures Opts(v, d, keepTtl, f) == a + b + c + e
    ensures a == [Abs(v)]
    ensures b == if d.Some? then [PxAt(d.value)] else []
    ensures c == if keepTtl then [KeepTtl] else []
    ensures e == if f.Some? then [Flags(f.value)] else []
  {
    a := [Abs(v)];
    b := if d.Some? then [PxAt(d.value)] else [];
    c := if keepTtl then [KeepTtl] else [];
    e := if f.Some? then [Flags(f.value)] else [];
  }

  lemma OptsBits(v: string, d: Option<string>, keepTtl: bool, f: Option<string>)
    ensures Bits(Opts(v, d, keepTtl, f)) == {SetWithAbsVer}
           + (if d.Some? then {SetPx, SetAbsExpire} else {})
           + (if keepTtl then {SetKeepTtl} else {})
           + (if f.Some? then {SetWithFlags} else {})
  {
    var a, b, c, e := OptsParts(v, d, keepTtl, f);
    assert Bits(a) == {SetWithAbsVer};
    assert Bits(b) == if d.Some? then {SetPx, SetAbsExpire} else {};
    assert Bits(c) == if keepTtl then {SetKeepTtl} else {};
    assert Bits(e) == if f.Some? then {SetWithFlags} else {};
    BitsAppend(a, b);
    BitsAppend(a + b, c);
    BitsAppend(a + b + c, e);
  }

  lemma OptsVersionArg(v: string, d: Option<string>, keepTtl: bool, f: Option<string>)
    ensures LastArg(Opts(v, d, keepTtl, f), VersionFamily) == Some(v)
  {
    var a, b, c, e := OptsParts(v, d, keepTtl, f);
    assert LastArg(a, VersionFamily) == Some(v);
    LastArgAppendNone(a, b, VersionFamily);
    LastArgAppendNone(a + b, c, VersionFamily);
    LastArgAppendNone(a + b + c, e, VersionFamily);
  }

  lemma OptsExpireArg(v: string, d: Option<string>, keepTtl: bool, f: Option<string>)
    ensures LastArg(Opts(v, d, keepTtl, f), ExpireFamily) == d
  {
    var a, b, c, e := OptsParts(v, d, keepTtl, f);
    if d.None? {
      assert a + b == a && LastArg(a, ExpireFamily) == None;
    } else {
      assert a + b == [Abs(v), PxAt(d.value)];
      assert LastArg(a + b, ExpireFamily) == d;
    }
    LastArgAppendNone(a + b, c, ExpireFamily);
    LastArgAppendNone(a + b + c, e, ExpireFamily);
  }

  lemma OptsFlagsArg(v: string, d: Option<string>, keepTtl: bool, f: Option<string>)
    ensures LastArg(Opts(v, d, keepTtl, f), FlagsFamily) == f
  {
    var a, b, c, e := OptsParts(v, d, keepTtl, f);
    if f.None? {
      assert a + b + c + e == a + b + c;
      LastArgAppendNone(a + b, c, FlagsFamily);
      LastArgAppendNone(a, b, FlagsFamily);
    }
  }

  lemma OptsClashFree(v: string, d: Option<string>, keepTtl: bool, f: Option<string>)
    requires !(d.Some? && keepTtl)
    ensures ClashFree(Opts(v, d, keepTtl, f))
  {
    var items := Opts(v, d, keepTtl, f);
    forall i, k | 0 <= i < k < |items|
      ensures !Clash(items[i], items[k])
    {
      assert FamilyOf(items[0]) == Some(VersionFamily);
      assert forall n :: 1 <= n < |items| ==> FamilyOf(items[n]) != Some(VersionFamily);
    }
  }

  lemma OptsOtherArgs(v: string, d: Option<string>, keepTtl: bool, f: Option<string>, fam: Family)
    requires fam == DefFamily || fam == MinFamily || fam == MaxFamily
    ensures LastArg(Opts(v, d, keepTtl, f), fam) == None
  {
    var a, b, c, e := OptsParts(v, d, keepTtl, f);
    assert LastArg(a, fam) == None;
    LastArgAppendNone(a, b, fam);
    LastArgAppendNone(a + b, c, fam);
    LastArgAppendNone(a + b + c, e, fam);
  }

  /** The flag set a rewritten form parses to. */
  function FormFlags(d: Option<string>, keepTtl: bool, f: Option<string>): set<Flag> {
    {SetWithAbsVer}
    + (if d.Some? then {SetPx, SetAbsExpire} else {})
    + (if keepTtl then {SetKeepTtl} else {})
    + (if f.Some? then {SetWithFlags} else {})
  }

  /** A rewritten form asks for neither NX, XX nor a relative version. */
  lemma FormFlagsOmit(d: Option<string>, keepTtl: bool, f: Option<string>)
    ensures SetNx !in FormFlags(d, keepTtl, f) && SetXx !in FormFlags(d, keepTtl, f)
    ensures SetWithVer !in FormFlags(d, keepTtl, f)
  {
  }

  /** What EXSET's parser makes of an argument vector laid out as a rewritten form. */
  lemma ParseFormTokens(cmd: seq<string>, v: string, d: Option<string>, keepTtl: bool, f: Option<string>)
    requires !(d.Some? && keepTtl)
    requires LexFrom(cmd, 3, ExSetSlots) == Some(Opts(v, d, keepTtl, f))
    ensures ParseSpec(cmd, 3, ExSetSlots, ExSetAllow) == Some(Parsed(FormFlags(d, keepTtl, f), d, Some(v), f, None, None, None))
  {
    OptsBits(v, d, keepTtl, f);
    OptsVersionArg(v, d, keepTtl, f);
    OptsExpireArg(v, d, keepTtl, f);
    OptsFlagsArg(v, d, keepTtl, f);
    OptsOtherArgs(v, d, keepTtl, f, DefFamily);
    OptsOtherArgs(v, d, keepTtl, f, MinFamily);
    OptsOtherArgs(v, d, keepTtl, f, MaxFamily);
    OptsClashFree(v, d, keepTtl, f);
    var items := Opts(v, d, keepTtl, f);
    assert Bits(items) == FormFlags(d, keepTtl, f) <= ExSetAllow;
    assert Summary(items) == Parsed(FormFlags(d, keepTtl, f), d, Some(v), f, None, None, None);
  }

  /** What EXSET's parser makes of a rewritten form (PXAT and KEEPTTL never together). */
  lemma ParseForm(key: string, value: string, version: u64, pxat: Option<int>, flags: Option<u32>, keepTtl: bool)
    requires !(pxat.Some? && keepTtl)
    ensures ParseSpec(ExSetForm(key, value, version, pxat, flags, keepTtl), 3, ExSetSlots, ExSetAllow)
         == Some(Parsed(FormFlags(DeadlineText(pxat), keepTtl, FlagsText(flags)), DeadlineText(pxat),
                        Some(VersionText(version)), FlagsText(flags), None, None, None))
  {
    var cmd := ExSetForm(key, value, version, pxat, flags, keepTtl);
    var v, d, f := VersionText(version), DeadlineText(pxat), FlagsText(flags);
    LexFormTokens(cmd, v, d, keepTtl, f);
    ParseFormTokens(cmd, v, d, keepTtl, f);
  }

  /** The bits of a concatenation are the union of the bits. */
  lemma {:induction false} BitsAppend(a: seq<Opt>, b: seq<Opt>)
    ensures Bits(a + b) == Bits(a) + Bits(b)
    decreases |b|
  {
    if b == [] {
      assert a + b == a;
    } else {
      var b' := b[..|b| - 1];
      assert (a + b)[..|a + b| - 1] == a + b';
      BitsAppend(a, b');
    }
  }

  /** Options of other families after the last of a family do not change its value. */
  lemma {:induction false} LastArgAppendNone(a: seq<Opt>, b: seq<Opt>, fam: Family)
    requires forall i :: 0 <= i < |b| ==> FamilyOf(b[i]) != Some(fam)
    ensures LastArg(a + b, fam) == LastArg(a, fam)
    decreases |b|
  {
    if b == [] {
      assert a + b == a;
    } else {
      var b' := b[..|b| - 1];
      assert (a + b)[..|a + b| - 1] == a + b';
      assert (a + b)[|a + b| - 1] == b[|b| - 1];
      LastArgAppendNone(a, b', fam);
    }
  }

  // ---------------------------------------------------------------- replaying the form

  /**
    Replaying a rewritten form on a key that is absent or holds an object:
    the object gets the named version, value and flags (the old flags, or 0,
    when the form has none), the key the named deadline, its old TTL with
    KEEPTTL, and none otherwise; the reply is OK and the replay rewrites to
    the very same form. An expired deadline (before `now`) is not covered.
   */
  lemma ReplayForm(db: Db, key: string, value: string, version: u64, pxat: Option<int>, flags: Option<u32>, keepTtl: bool, now: int)
    requires Valid(db) && version <= MaxInt64 && !(pxat.Some? && keepTtl)
    requires key in db.entries ==> db.entries[key].Tair?
    requires pxat.Some? ==> 0 < pxat.value <= MaxInt64 && now <= pxat.value
    ensures var r := ExSet(db, ExSetForm(key, value, version, pxat, flags, keepTtl), now);
      var before := if key in db.entries then db.entries[key].obj.flags else 0;
      && r.db == Db(db.entries[key := Tair(TairObj(version, if flags.Some? then flags.value else before, value))],
                    if pxat.Some? then db.expires[key := pxat.value]
                    else if keepTtl then db.expires
                    else db.expires - {key})
      && r.reply == Status("OK")
      && r.propagated == [ExSetForm(key, value, version, pxat, flags, keepTtl)]
  {
    var cmd := ExSetForm(key, value, version, pxat, flags, keepTtl);
    var p := ReplayDispatch(db, key, value, version, pxat, flags, keepTtl, now);
    var obj := if key in db.entries then db.entries[key].obj else Fresh;
    ExSetReachesWrite(db, cmd, p, obj, now);
    ReplayWrite(db, cmd, p, obj, version, pxat, flags, keepTtl, now);
  }

  /** The replayed form passes every check of EXSET and reaches its write step. */
  lemma ReplayDispatch(db: Db, key: string, value: string, version: u64, pxat: Option<int>, flags: Option<u32>, keepTtl: bool, now: int)
    returns (p: Parsed)
    requires Valid(db) && version <= MaxInt64 && !(pxat.Some? && keepTtl)
    requires key in db.entries ==> db.entries[key].Tair?
    requires pxat.Some? ==> 0 < pxat.value <= MaxInt64
    ensures var cmd := ExSetForm(key, value, version, pxat, flags, keepTtl);
      && |cmd| >= 3 && cmd[1] == key && cmd[2] == value
      && ParseSpec(cmd, 3, ExSetSlots, ExSetAllow) == Some(p)
      && p.flags == {SetWithAbsVer}
           + (if pxat.Some? then {SetPx, SetAbsExpire} else {})
           + (if keepTtl then {SetKeepTtl} else {})
           + (if flags.Some? then {SetWithFlags} else {})
      && Num(p.version) == version
      && (p.expire.Some? <==> pxat.Some?) && (pxat.Some? ==> Num(p.expire) == pxat.value)
      && (p.flagsArg.Some? <==> flags.Some?) && (flags.Some? ==> Num(p.flagsArg) == flags.value)
      && !BadNum(p.expire) && !BadNum(p.version) && !BadNum(p.flagsArg)
      && SetNx !in p.flags && SetXx !in p.flags && SetWithVer !in p.flags
  {
    var cmd := ExSetForm(key, value, version, pxat, flags, keepTtl);
    ParseForm(key, value, version, pxat, flags, keepTtl);
    p := ParseSpec(cmd, 3, ExSetSlots, ExSetAllow).value;
    FormFlagsOmit(DeadlineText(pxat), keepTtl, FlagsText(flags));
    assert Num(p.version) == version;
    if pxat.Some? {
      ParseFormat(pxat.value);
      assert Num(p.expire) == pxat.value;
    }
    if flags.Some? {
      ParseFormat(flags.value);
      assert Num(p.flagsArg) == flags.value;
    }
    assert cmd[1] == key && cmd[2] == value;
  }

  /** With every check passed, EXSET is its write step on the object being overwritten (or a fresh one). */
  lemma ExSetReachesWrite(db: Db, argv: seq<string>, p: Parsed, obj: TairObj, now: int)
    requires Valid(db) && |argv| >= 3 && ParseSpec(argv, 3, ExSetSlots, ExSetAllow) == Some(p)
    requires !BadNum(p.expire) && !BadNum(p.version) && !BadNum(p.flagsArg)
    requires !(p.expire.Some? && Num(p.expire) <= 0) && 0 <= Num(p.version) && 0 <= Num(p.flagsArg) <= MaxUint32
    requires argv[1] !in db.entries ==> SetXx !in p.flags && obj == Fresh
    requires argv[1] in db.entries ==>
      && db.entries[argv[1]] == Tair(obj) && SetNx !in p.flags
      && VersionAccepted(p.flags, Num(p.version), obj.version)
    ensures ExSet(db, argv, now) == ExSetWrite(db, argv, p, obj, now)
  {
  }

  /** EXSET's write step on the parsed form. */
  lemma ReplayWrite(db: Db, cmd: seq<string>, p: Parsed, obj: TairObj,
                    version: u64, pxat: Option<int>, flags: Option<u32>, keepTtl: bool, now: int)
    requires Valid(db) && |cmd| >= 3 && 0 <= Num(p.version) && 0 <= Num(p.flagsArg) <= MaxUint32
    requires !(pxat.Some? && keepTtl)
    requires p.flags == {SetWithAbsVer}
           + (if pxat.Some? then {SetPx, SetAbsExpire} else {})
           + (if keepTtl then {SetKeepTtl} else {})
           + (if flags.Some? then {SetWithFlags} else {})
    requires Num(p.version) == version
    requires (p.expire.Some? <==> pxat.Some?) && (pxat.Some? ==> Num(p.expire) == pxat.value)
    requires (p.flagsArg.Some? <==> flags.Some?) && (flags.Some? ==> Num(p.flagsArg) == flags.value)
    requires pxat.Some? ==> now <= pxat.value
    requires cmd == ExSetForm(cmd[1], cmd[2], version, pxat, flags, keepTtl)
    ensures var r := ExSetWrite(db, cmd, p, obj, now);
      && r.db == Db(db.entries[cmd[1] := Tair(TairObj(version, if flags.Some? then flags.value else obj.flags, cmd[2]))],
                    if pxat.Some? then db.expires[cmd[1] := pxat.value]
                    else if keepTtl then db.expires
                    else db.expires - {cmd[1]})
      && r.reply == Status("OK")
      && r.propagated == [cmd]
  {
    var ttl := TtlActionOf(p.expire, p.flags, now);
    if pxat.Some? {
      assert ttl == ExpireIn(pxat.value - now);
    } else if keepTtl {
      assert ttl == Retain;
    } else {
      assert ttl == Persist;
    }
  }

  // ---------------------------------------------------------------- the AOF rewrite

  /**
    Loading the AOF rewrite of an object into a keyspace where the key is absent
    or holds an object gives back exactly that object, with no TTL. Versions
    above the signed 64-bit range are written as negative numbers and refused,
    so the lemma needs the version in range.
   */
  lemma AofReload(db: Db, key: string, obj: TairObj, now: int)
    requires Valid(db) && obj.version <= MaxInt64
    requires key in db.entries ==> db.entries[key].Tair?
    ensures ExSet(db, AofRewrite(key, obj), now).db == Db(db.entries[key := Tair(obj)], db.expires - {key})
  {
    ReplayForm(db, key, obj.value, obj.version, None, Some(obj.flags), false, now);
  }

  /** A version above the signed range makes the AOF rewrite unloadable: EXSET refuses the negative version. */
  lemma AofRewriteRefusesHighVersion(db: Db, key: string, obj: TairObj, now: int)
    requires Valid(db) && obj.version > MaxInt64
    ensures ExSet(db, AofRewrite(key, obj), now).reply == Err(SyntaxError)
  {
    ParseForm(key, obj.value, obj.version, None, Some(obj.flags), false);
  }

  // ---------------------------------------------------------------- master and replica

  /**
    Replaying the form that a write propagates, on a replica holding the
    master's keyspace from before the write, installs what the master
    installed. The version must be in the signed range and a deadline must be
    positive, in range, and not yet passed on the replica's clock.
   */
  lemma InstallReplays(db: Db, key: string, stored: TairObj, ttl: TtlAction, flags: Option<u32>, now: int, later: int)
    requires Valid(db) && stored.version <= MaxInt64
    requires key in db.entries ==> db.entries[key].Tair?
    requires flags.Some? ==> stored.flags == flags.value
    requires flags.None? ==> stored.flags == (if key in db.entries then db.entries[key].obj.flags else 0)
    requires ttl.ExpireIn? ==> 0 < now + ttl.ms <= MaxInt64 && later <= now + ttl.ms
    ensures ExSet(db, ExSetForm(key, stored.value, stored.version, ReplicatedDeadline(ttl, now), flags, ttl.Retain?), later).db
         == Install(db, key, Tair(stored), ttl, now)
  {
    ReplayForm(db, key, stored.value, stored.version, ReplicatedDeadline(ttl, now), flags, ttl.Retain?, later);
    assert stored == TairObj(stored.version, stored.flags, stored.value);
  }

  /** The replica's EXSET reaches the master's keyspace. */
  lemma ExSetReplicaAgrees(db: Db, argv: seq<string>, now: int, later: int)
    requires Valid(db) && CommandLemmas.ExSetArgsOk(argv) && ExSet(db, argv, now).propagated != []
    requires var r := ExSet(db, argv, now);
      && (argv[1] in r.db.entries && r.db.entries[argv[1]].Tair? ==> r.db.entries[argv[1]].obj.version <= MaxInt64)
      && (ParseSpec(argv, 3, ExSetSlots, ExSetAllow).value.expire.Some? && argv[1] in r.db.expires ==>
            0 < r.db.expires[argv[1]] <= MaxInt64 && later <= r.db.expires[argv[1]])
    ensures ExSet(db, ExSet(db, argv, now).propagated[0], later).db == ExSet(db, argv, now).db
  {
    CommandLemmas.ExSetSuccess(db, argv, now);
    var p := ParseSpec(argv, 3, ExSetSlots, ExSetAllow).value;
    var key := argv[1];
    var obj := if key in db.entries then db.entries[key].obj else Fresh;
    ExSetReachesWrite(db, argv, p, obj, now);
    ExFlagsLemmas.ParsedValuesMatchFlags(argv, 3, ExSetSlots, ExSetAllow);
    var stored := TairObj(NewVersion(obj.version, p.flags, Num(p.version)),
                          if SetWithFlags in p.flags then Num(p.flagsArg) else obj.flags, argv[2]);
    var ttl := TtlActionOf(p.expire, p.flags, now);
    InstallReplays(db, key, stored, ttl, if p.flagsArg.Some? then Some(stored.flags) else None, now, later);
  }

  /** A successful EXINCRBY is its write step on the existing object, or on a fresh one. */
  lemma IncrReachesStore(db: Db, argv: seq<string>, now: int) returns (result: int)
    requires Valid(db) && ExIncrBy(db, argv, now).propagated != []
    ensures |argv| >= 3 && ParseSpec(argv, 3, IncrSlots, IncrAllow).Some?
    ensures argv[1] in db.entries ==> db.entries[argv[1]].Tair?
    ensures 0 <= Num(ParseSpec(argv, 3, IncrSlots, IncrAllow).value.version)
    ensures ExIncrBy(db, argv, now)
         == IncrStore(db, argv[1], ParseSpec(argv, 3, IncrSlots, IncrAllow).value,
                      if argv[1] in db.entries then db.entries[argv[1]].obj else Fresh, result, now)
  {
    var p := ParseSpec(argv, 3, IncrSlots, IncrAllow).value;
    var key := argv[1];
    var incr := ParseLongLong(argv[2]).value;
    var isNew := key !in db.entries;
    var value := if isNew then Num(p.defaultValue) else ParseLongLong(db.entries[key].obj.value).value;
    var sum := if isNew && SetWithDef in p.flags then value else value + incr;
    result := if SetNoNegative in p.flags && sum < 0 then 0 else sum;
  }

  /** The replica's EXSET reaches the keyspace EXINCRBY left on the master. */
  lemma IncrReplicaAgrees(db: Db, argv: seq<string>, now: int, later: int)
    requires Valid(db) && |argv| >= 3 && ParseSpec(argv, 3, IncrSlots, IncrAllow).Some?
    requires ExIncrBy(db, argv, now).propagated != []
    requires var r := ExIncrBy(db, argv, now);
      && (argv[1] in r.db.entries && r.db.entries[argv[1]].Tair? ==> r.db.entries[argv[1]].obj.version <= MaxInt64)
      && (ParseSpec(argv, 3, IncrSlots, IncrAllow).value.expire.Some? && argv[1] in r.db.expires ==>
            0 < r.db.expires[argv[1]] <= MaxInt64 && later <= r.db.expires[argv[1]])
    ensures ExSet(db, ExIncrBy(db, argv, now).propagated[0], later).db == ExIncrBy(db, argv, now).db
  {
    var result := IncrReachesStore(db, argv, now);
    var p := ParseSpec(argv, 3, IncrSlots, IncrAllow).value;
    var key := argv[1];
    var obj := if key in db.entries then db.entries[key].obj else Fresh;
    var stored := TairObj(NewVersion(obj.version, p.flags, Num(p.version)), obj.flags, FormatLongLong(result));
    var ttl := TtlActionOf(p.expire, p.flags, now);
    InstallReplays(db, key, stored, ttl, None, now, later);
  }

  /** The replica's EXSET reaches the keyspace a successful EXCAS left on the master. */
  lemma CasReplicaAgrees(db: Db, argv: seq<string>, now: int, later: int)
    requires Valid(db) && CommandLemmas.ExCasArgsOk(argv) && ExCas(db, argv, now).propagated != []
    requires var r := ExCas(db, argv, now);
      && (argv[1] in r.db.entries && r.db.entries[argv[1]].Tair? ==> r.db.entries[argv[1]].obj.version <= MaxInt64)
      && (ParseSpec(argv, 4, ExpireSlots, CasAllow).value.expire.Some? && argv[1] in r.db.expires ==>
            0 < r.db.expires[argv[1]] <= MaxInt64 && later <= r.db.expires[argv[1]])
    ensures ExSet(db, ExCas(db, argv, now).propagated[0], later).db == ExCas(db, argv, now).db
  {
    var p := ParseSpec(argv, 4, ExpireSlots, CasAllow).value;
    var key := argv[1];
    var obj := db.entries[key].obj;
    var stored := TairObj(Bump(obj.version), obj.flags, argv[2]);
    var ttl := TtlActionOf(p.expire, p.flags, now);
    InstallReplays(db, key, stored, ttl, None, now, later);
  }

  // ---------------------------------------------------------------- the form without KEEPTTL

  /** `KEEPTTL` alone parses to the KEEPTTL bit and no values. */
  lemma ParseKeepTtlOnly(argv: seq<string>)
    requires |argv| == 4 && argv[3] == "KEEPTTL"
    ensures ParseSpec(argv, 3, ExSetSlots, ExSetAllow) == Some(Parsed({SetKeepTtl}, None, None, None, None, None, None))
  {
    assert LexFrom(argv, 4, ExSetSlots) == Some([]);
    ClassifyKeepTtl(argv[3], NextToken(argv, 3));
    LexKeepTtl(argv, 3, []);
    assert [KeepTtl] + [] == [KeepTtl];
    assert [KeepTtl][..0] == [];
    assert Bits([KeepTtl]) == {SetKeepTtl};
  }

  /**
    `EXSET key value KEEPTTL` on an object with a deadline: the master keeps
    the deadline, and propagates the form with KEEPTTL, which replays to the
    same keyspace; the form as the code writes it, without KEEPTTL, replays to
    a keyspace where the key has no deadline.
   */
  lemma KeepTtlOverwrite(db: Db, key: string, value: string)
    requires Valid(db) && key in db.entries && db.entries[key].Tair? && key in db.expires
    requires db.entries[key].obj.version < MaxInt64
    ensures var master := ExSet(db, ["EXSET", key, value, "KEEPTTL"], 0);
      var obj := db.entries[key].obj;
      && master.db.expires == db.expires
      && master.db.entries[key] == Tair(TairObj(obj.version + 1, obj.flags, value))
      && master.propagated == [ExSetForm(key, value, obj.version + 1, None, None, true)]
      && ExSet(db, master.propagated[0], 0).db == master.db
      && key !in ExSet(db, ExSetFormAsWritten(key, value, obj.version + 1, None, None), 0).db.expires
  {
    var obj := db.entries[key].obj;
    KeepTtlMaster(db, key, value);
    ReplayForm(db, key, value, obj.version + 1, None, None, true, 0);
    ReplayForm(db, key, value, obj.version + 1, None, None, false, 0);
  }

  /** The master's side of `EXSET key value KEEPTTL` on an existing object. */
  lemma KeepTtlMaster(db: Db, key: string, value: string)
    requires Valid(db) && key in db.entries && db.entries[key].Tair?
    requires db.entries[key].obj.version < MaxInt64
    ensures var obj := db.entries[key].obj;
      ExSet(db, ["EXSET", key, value, "KEEPTTL"], 0)
      == Outcome(Status("OK"), Db(db.entries[key := Tair(TairObj(obj.version + 1, obj.flags, value))], db.expires),
                 [ExSetForm(key, value, obj.version + 1, None, None, true)])
  {
    var argv := ["EXSET", key, value, "KEEPTTL"];
    ParseKeepTtlOnly(argv);
    var p := Parsed({SetKeepTtl}, None, None, None, None, None, None);
    ExSetReachesWrite(db, argv, p, db.entries[key].obj, 0);
    KeepTtlWrite(db, argv, p, db.entries[key].obj);
  }

  /** EXSET's write step with KEEPTTL alone: the version goes up by one and the deadline stays. */
  lemma KeepTtlWrite(db: Db, argv: seq<string>, p: Parsed, obj: TairObj)
    requires Valid(db) && |argv| >= 3 && obj.version < MaxInt64
    requires p == Parsed({SetKeepTtl}, None, None, None, None, None, None)
    ensures ExSetWrite(db, argv, p, obj, 0)
      == Outcome(Status("OK"), Db(db.entries[argv[1] := Tair(TairObj(obj.version + 1, obj.flags, argv[2]))], db.expires),
                 [ExSetForm(argv[1], argv[2], obj.version + 1, None, None, true)])
  {
    assert NewVersion(obj.version, p.flags, Num(p.version)) == obj.version + 1;
    assert TtlActionOf(p.expire, p.flags, 0) == Retain;
  }

  /**
    The concrete case: "k" holds version 1 with a deadline at 100. After
    `EXSET k b KEEPTTL` the master still expires "k" at 100; a replica that
    replays the form the code propagates keeps "k" forever.
   */
  lemma KeepTtlLostOnReplica()
    ensures var db := Db(map["k" := Tair(TairObj(1, 0, "a"))], map["k" := 100]);
      && "k" in ExSet(db, ["EXSET", "k", "b", "KEEPTTL"], 0).db.expires
      && "k" !in ExSet(db, ExSetFormAsWritten("k", "b", 2, None, None), 0).db.expires
  {
    KeepTtlOverwrite(Db(map["k" := Tair(TairObj(1, 0, "a"))], map["k" := 100]), "k", "b");
  }
}
