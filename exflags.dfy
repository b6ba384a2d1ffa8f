/**
  The option grammar shared by the commands (`parseAndGetExFlags`).

  The scan reads `argv[start..]` left to right. Whether a token is a keyword,
  and which token is its value, depends only on the token, on whether the
  caller passed a slot for that keyword and on whether a next token exists;
  the flags collected so far only decide whether the scan gives up. The model
  therefore splits the parser in three:
  - `LexFrom` turns the arguments into a sequence of options (or fails on an
    unknown token);
  - `ParseSpec` is the declarative meaning: the lexing succeeds, no two options
    clash, and every flag bit is in the caller's allow-mask;
  - `ParseExFlags` is the imperative scan with its early returns, proved to
    compute `ParseSpec`.
 */
module ExFlags {
  import opened Optional

  /** The TAIR_STRING_SET_* bits; a flag set is the set of bits that are on. */
  datatype Flag =
    | SetNx | SetXx | SetEx | SetPx | SetAbsExpire | SetWithVer | SetWithAbsVer
    | SetWithBoundary | SetWithFlags | SetWithDef | SetNoNegative | ReturnWithVer | SetKeepTtl

  /** The numeric value of each bit: `ex_flags` is the sum of the values of its members. */
  function FlagValue(f: Flag): nat {
    match f
    case SetNx => 0x1              // 1 << 0
    case SetXx => 0x2              // 1 << 1
    case SetEx => 0x4              // 1 << 2
    case SetPx => 0x8              // 1 << 3
    case SetAbsExpire => 0x10      // 1 << 4
    case SetWithVer => 0x20        // 1 << 5
    case SetWithAbsVer => 0x40     // 1 << 6
    case SetWithBoundary => 0x80   // 1 << 7
    case SetWithFlags => 0x100     // 1 << 8
    case SetWithDef => 0x200       // 1 << 9
    case SetNoNegative => 0x400    // 1 << 10
    case ReturnWithVer => 0x800    // 1 << 11
    case SetKeepTtl => 0x1000      // 1 << 12
  }

  /** ASCII lower-casing, as `strncasecmp` does in the C locale. */
  function Lower(c: char): char {
    if 'A' <= c <= 'Z' then ((c as int) + 32) as char else c
  }

  /** `!mstringcasecmp(token, keyword)`: same length and equal up to ASCII case. */
  predicate CaseInsensitiveEquals(token: string, keyword: string) {
    |token| == |keyword| && forall i :: 0 <= i < |token| ==> Lower(token[i]) == Lower(keyword[i])
  }

  /** One recognised option, with the token it consumed as its value. */
  datatype Opt =
    | Nx | Xx
    | Ex(arg: string) | ExAt(arg: string) | Px(arg: string) | PxAt(arg: string)
    | Ver(arg: string) | Abs(arg: string) | Flags(arg: string) | Def(arg: string)
    | Min(arg: string) | Max(arg: string)
    | NoNegative | WithVersion | KeepTtl

  /** Which of the optional out-parameters the caller passed (non-NULL). */
  datatype Slots = Slots(expire: bool, version: bool, flags: bool, defaultValue: bool, min: bool, max: bool)

  /** The groups of value-taking options, one out-parameter each. */
  datatype Family = ExpireFamily | VersionFamily | FlagsFamily | DefFamily | MinFamily | MaxFamily

  function FamilyOf(o: Opt): Option<Family> {
    match o
    case Ex(_) => Some(ExpireFamily)
    case ExAt(_) => Some(ExpireFamily)
    case Px(_) => Some(ExpireFamily)
    case PxAt(_) => Some(ExpireFamily)
    case Ver(_) => Some(VersionFamily)
    case Abs(_) => Some(VersionFamily)
    case Flags(_) => Some(FlagsFamily)
    case Def(_) => Some(DefFamily)
    case Min(_) => Some(MinFamily)
    case Max(_) => Some(MaxFamily)
    case _ => None
  }

  /** Whether the caller passed the out-parameter of a family. */
  function SlotOpen(slots: Slots, fam: Family): bool {
    match fam
    case ExpireFamily => slots.expire
    case VersionFamily => slots.version
    case FlagsFamily => slots.flags
    case DefFamily => slots.defaultValue
    case MinFamily => slots.min
    case MaxFamily => slots.max
  }

  predicate IsExpiry(o: Opt) {
    FamilyOf(o) == Some(ExpireFamily)
  }

  /** The keyword an option is written with. */
  function KeywordOf(o: Opt): string {
    match o
    case Nx => "nx"
    case Xx => "xx"
    case Ex(_) => "ex"
    case ExAt(_) => "exat"
    case Px(_) => "px"
    case PxAt(_) => "pxat"
    case Ver(_) => "ver"
    case Abs(_) => "abs"
    case Flags(_) => "flags"
    case Def(_) => "def"
    case Min(_) => "min"
    case Max(_) => "max"
    case NoNegative => "nonegative"
    case WithVersion => "withversion"
    case KeepTtl => "keepttl"
  }

  /** The bits an option ORs into the flag set. */
  function Bit(o: Opt): set<Flag> {
    match o
    case Nx => {SetNx}
    case Xx => {SetXx}
    case Ex(_) => {SetEx}
    case ExAt(_) => {SetEx, SetAbsExpire}
    case Px(_) => {SetPx}
    case PxAt(_) => {SetPx, SetAbsExpire}
    case Ver(_) => {SetWithVer}
    case Abs(_) => {SetWithAbsVer}
    case Flags(_) => {SetWithFlags}
    case Def(_) => {SetWithDef}
    case Min(_) => {SetWithBoundary}
    case Max(_) => {SetWithBoundary}
    case NoNegative => {SetNoNegative}
    case WithVersion => {ReturnWithVer}
    case KeepTtl => {SetKeepTtl}
  }

  /**
    Token recognition, in the order the scan tries the keywords. A value-taking
    keyword is recognised only when its slot was passed and a next token exists.
   */
  function Classify(token: string, next: Option<string>, slots: Slots): (r: Option<Opt>)
    ensures r.Some? ==> CaseInsensitiveEquals(token, KeywordOf(r.value))
    ensures r.Some? && FamilyOf(r.value).Some? ==> next == Some(r.value.arg)
    ensures r.Some? && FamilyOf(r.value).Some? ==> SlotOpen(slots, FamilyOf(r.value).value)
  {
    if CaseInsensitiveEquals(token, "nx") then Some(Nx)
    else if CaseInsensitiveEquals(token, "xx") then Some(Xx)
    else if slots.expire && CaseInsensitiveEquals(token, "ex") && next.Some? then Some(Ex(next.value))
    else if slots.expire && CaseInsensitiveEquals(token, "exat") && next.Some? then Some(ExAt(next.value))
    else if slots.expire && CaseInsensitiveEquals(token, "px") && next.Some? then Some(Px(next.value))
    else if slots.expire && CaseInsensitiveEquals(token, "pxat") && next.Some? then Some(PxAt(next.value))
    else if slots.version && CaseInsensitiveEquals(token, "ver") && next.Some? then Some(Ver(next.value))
    else if slots.version && CaseInsensitiveEquals(token, "abs") && next.Some? then Some(Abs(next.value))
    else if slots.flags && CaseInsensitiveEquals(token, "flags") && next.Some? then Some(Flags(next.value))
    else if slots.defaultValue && CaseInsensitiveEquals(token, "def") && next.Some? then Some(Def(next.value))
    else if slots.min && CaseInsensitiveEquals(token, "min") && next.Some? then Some(Min(next.value))
    else if slots.max && CaseInsensitiveEquals(token, "max") && next.Some? then Some(Max(next.value))
    else if CaseInsensitiveEquals(token, "nonegative") then Some(NoNegative)
    else if CaseInsensitiveEquals(token, "withversion") then Some(WithVersion)
    else if CaseInsensitiveEquals(token, "keepttl") then Some(KeepTtl)
    else None
  }

  /** How many tokens an option consumes: its keyword, and its value if it has one. */
  function Width(o: Opt): nat {
    if FamilyOf(o).Some? then 2 else 1
  }

  function NextToken(argv: seq<string>, j: nat): Option<string> {
    if j + 1 < |argv| then Some(argv[j + 1]) else None
  }

  /** The options written in `argv[j..]`, or None at the first unknown token. */
  function LexFrom(argv: seq<string>, j: nat, slots: Slots): Option<seq<Opt>>
    decreases |argv| - j
  {
    if j >= |argv| then Some([])
    else
      match Classify(argv[j], NextToken(argv, j), slots)
      case None => None
      case Some(o) =>
        match LexFrom(argv, j + Width(o), slots)
        case None => None
        case Some(rest) => Some([o] + rest)
  }

  /**
    Two options that may not both appear: NX with XX; two expiry directives, or
    one with KEEPTTL; and two options of the same value family (VER/ABS, FLAGS,
    DEF, MIN, MAX). NX, XX and KEEPTTL may repeat; so may NONEGATIVE and WITHVERSION.
   */
  predicate Clash(a: Opt, b: Opt) {
    || (a.Nx? && b.Xx?) || (a.Xx? && b.Nx?)
    || (FamilyOf(a).Some? && FamilyOf(a) == FamilyOf(b))
    || (IsExpiry(a) && b.KeepTtl?) || (a.KeepTtl? && IsExpiry(b))
  }

  predicate ClashFree(items: seq<Opt>) {
    forall i, k :: 0 <= i < k < |items| ==> !Clash(items[i], items[k])
  }

  /** The union of the options' bits. */
  function Bits(items: seq<Opt>): set<Flag> {
    if items == [] then {} else Bits(items[..|items| - 1]) + Bit(items[|items| - 1])
  }

  /** The value of the last option of a family (in a clash-free list, the only one). */
  function LastArg(items: seq<Opt>, fam: Family): Option<string> {
    if items == [] then None
    else if FamilyOf(items[|items| - 1]) == Some(fam) then Some(items[|items| - 1].arg)
    else LastArg(items[..|items| - 1], fam)
  }

  /** The parser's outputs: the flag set and the raw value tokens. */
  datatype Parsed = Parsed(
    flags: set<Flag>,
    expire: Option<string>,
    version: Option<string>,
    flagsArg: Option<string>,
    defaultValue: Option<string>,
    min: Option<string>,
    max: Option<string>)

  function Summary(items: seq<Opt>): Parsed {
    Parsed(Bits(items), LastArg(items, ExpireFamily), LastArg(items, VersionFamily),
           LastArg(items, FlagsFamily), LastArg(items, DefFamily),
           LastArg(items, MinFamily), LastArg(items, MaxFamily))
  }

  /** What the parser accepts, stated without the scan. */
  function ParseSpec(argv: seq<string>, start: nat, slots: Slots, allow: set<Flag>): Option<Parsed> {
    match LexFrom(argv, start, slots)
    case None => None
    case Some(items) =>
      if ClashFree(items) && Bits(items) <= allow then Some(Summary(items)) else None
  }

  /**
    The test the scan makes before taking `o`: `ex_flags & (...)` on the bits of
    the options that exclude it, and for MIN and MAX the out-parameter already
    being set.
   */
  function Conflicts(o: Opt, flags: set<Flag>, min: Option<string>, max: Option<string>): bool {
    if o.Min? then min.Some? else if o.Max? then max.Some? else FlagConflict(o, flags)
  }

  function FlagConflict(o: Opt, flags: set<Flag>): bool {
    match o
    case Nx => SetXx in flags
    case Xx => SetNx in flags
    case Ex(_) => SetPx in flags || SetEx in flags || SetKeepTtl in flags
    case ExAt(_) => SetPx in flags || SetEx in flags || SetKeepTtl in flags
    case Px(_) => SetPx in flags || SetEx in flags || SetKeepTtl in flags
    case PxAt(_) => SetPx in flags || SetEx in flags || SetKeepTtl in flags
    case Ver(_) => SetWithVer in flags || SetWithAbsVer in flags
    case Abs(_) => SetWithVer in flags || SetWithAbsVer in flags
    case Flags(_) => SetWithFlags in flags
    case Def(_) => SetWithDef in flags
    case KeepTtl => SetPx in flags || SetEx in flags
    case _ => false
  }

  function Prepend(done: seq<Opt>, r: Option<seq<Opt>>): Option<seq<Opt>> {
    match r
    case None => None
    case Some(rest) => Some(done + rest)
  }

  /** The scan of `parseAndGetExFlags`, returning early on the first conflict. */
  method ParseExFlags(argv: seq<string>, start: nat, slots: Slots, allow: set<Flag>) returns (r: Option<Parsed>)
    ensures r == ParseSpec(argv, start, slots, allow)
  {
    var j := start;
    var flags := {};
    var expire, version, flagsArg, defaultValue, min, max := None, None, None, None, None, None;
    ghost var done: seq<Opt> := [];
    PrependNothing(LexFrom(argv, j, slots));
    while j < |argv|
      invariant LexFrom(argv, start, slots) == Prepend(done, LexFrom(argv, j, slots))
      invariant ClashFree(done)
      invariant flags == Bits(done)
      invariant expire == LastArg(done, ExpireFamily) && version == LastArg(done, VersionFamily)
      invariant flagsArg == LastArg(done, FlagsFamily) && defaultValue == LastArg(done, DefFamily)
      invariant min == LastArg(done, MinFamily) && max == LastArg(done, MaxFamily)
      decreases |argv| - j
    {
      var next := if j == |argv| - 1 then None else Some(argv[j + 1]);
      var o := Classify(argv[j], next, slots);
      if o.None? {
        return None;
      }
      var opt := o.value;
      ConflictTestIsClash(done, opt, flags, min, max);
      if Conflicts(opt, flags, min, max) {
        ClashRejects(argv, start, j, slots, allow, done, opt);
        return None;
      }
      flags := flags + Bit(opt);
      match FamilyOf(opt) {
        case Some(ExpireFamily) => expire := Some(opt.arg);
        case Some(VersionFamily) => version := Some(opt.arg);
        case Some(FlagsFamily) => flagsArg := Some(opt.arg);
        case Some(DefFamily) => defaultValue := Some(opt.arg);
        case Some(MinFamily) => min := Some(opt.arg);
        case Some(MaxFamily) => max := Some(opt.arg);
        case None =>
      }
      ExtendScan(argv, start, j, slots, done, opt);
      done := done + [opt];
      j := j + Width(opt);
    }
    assert LexFrom(argv, j, slots) == Some([]) && done + [] == done;
    if !(flags <= allow) {
      return None;
    }
    return Some(Parsed(flags, expire, version, flagsArg, defaultValue, min, max));
  }

  lemma PrependNothing(r: Option<seq<Opt>>)
    ensures Prepend([], r) == r
  {
    if r.Some? { assert [] + r.value == r.value; }
  }

  /** Taking one more option keeps the scan's state in step with the lexed prefix. */
  lemma ExtendScan(argv: seq<string>, start: nat, j: nat, slots: Slots, done: seq<Opt>, opt: Opt)
    requires j < |argv|
    requires LexFrom(argv, start, slots) == Prepend(done, LexFrom(argv, j, slots))
    requires Classify(argv[j], NextToken(argv, j), slots) == Some(opt)
    requires ClashFree(done)
    requires forall i :: 0 <= i < |done| ==> !Clash(done[i], opt)
    ensures LexFrom(argv, start, slots) == Prepend(done + [opt], LexFrom(argv, j + Width(opt), slots))
    ensures ClashFree(done + [opt])
    ensures Bits(done + [opt]) == Bits(done) + Bit(opt)
    ensures forall fam :: LastArg(done + [opt], fam) == if FamilyOf(opt) == Some(fam) then Some(opt.arg) else LastArg(done, fam)
  {
    var d := done + [opt];
    assert d[..|done|] == done;
    ExtendLex(argv, j, slots, done, opt);
    forall i, k | 0 <= i < k < |d| ensures !Clash(d[i], d[k]) {
      if k < |done| { assert d[i] == done[i] && d[k] == done[k]; }
    }
  }

  lemma ExtendLex(argv: seq<string>, j: nat, slots: Slots, done: seq<Opt>, opt: Opt)
    requires j < |argv|
    requires Classify(argv[j], NextToken(argv, j), slots) == Some(opt)
    ensures Prepend(done, LexFrom(argv, j, slots)) == Prepend(done + [opt], LexFrom(argv, j + Width(opt), slots))
  {
    match LexFrom(argv, j + Width(opt), slots)
    case None =>
    case Some(rest) =>
      assert done + ([opt] + rest) == done + [opt] + rest;
  }

  /** Once the scan meets a clashing option, no later token can rescue the parse. */
  lemma ClashRejects(argv: seq<string>, start: nat, j: nat, slots: Slots, allow: set<Flag>, done: seq<Opt>, opt: Opt)
    requires j < |argv|
    requires LexFrom(argv, start, slots) == Prepend(done, LexFrom(argv, j, slots))
    requires Classify(argv[j], NextToken(argv, j), slots) == Some(opt)
    requires exists i :: 0 <= i < |done| && Clash(done[i], opt)
    ensures ParseSpec(argv, start, slots, allow) == None
  {
    var i :| 0 <= i < |done| && Clash(done[i], opt);
    ExtendLex(argv, j, slots, done, opt);
    match LexFrom(argv, j + Width(opt), slots)
    case None =>
    case Some(rest) =>
      var items := done + [opt] + rest;
      assert LexFrom(argv, start, slots) == Some(items);
      assert items[i] == done[i] && items[|done|] == opt;
      assert !ClashFree(items);
  }

  /** The scan's test on the collected flags detects exactly a clash with an earlier option. */
  lemma ConflictTestIsClash(done: seq<Opt>, opt: Opt, flags: set<Flag>, min: Option<string>, max: Option<string>)
    requires flags == Bits(done)
    requires min == LastArg(done, MinFamily) && max == LastArg(done, MaxFamily)
    ensures Conflicts(opt, flags, min, max) <==> exists i :: 0 <= i < |done| && Clash(done[i], opt)
  {
    if opt.Min? {
      LastArgSome(done, MinFamily);
    } else if opt.Max? {
      LastArgSome(done, MaxFamily);
    } else {
      FlagConflictIsClash(done, opt);
    }
  }

  lemma {:induction false} FlagConflictIsClash(done: seq<Opt>, opt: Opt)
    requires !opt.Min? && !opt.Max?
    ensures FlagConflict(opt, Bits(done)) <==> exists i :: 0 <= i < |done| && Clash(done[i], opt)
  {
    if done != [] {
      var n := |done| - 1;
      var p := done[..n];
      FlagConflictIsClash(p, opt);
      FlagConflictUnion(opt, Bits(p), Bit(done[n]));
      ClashByBits(done[n], opt);
      assert forall i :: 0 <= i < n ==> p[i] == done[i];
      if FlagConflict(opt, Bits(p)) {
        var k :| 0 <= k < |p| && Clash(p[k], opt);
        assert Clash(done[k], opt);
      }
    }
  }

  lemma FlagConflictUnion(o: Opt, a: set<Flag>, b: set<Flag>)
    ensures FlagConflict(o, a + b) <==> FlagConflict(o, a) || FlagConflict(o, b)
  {
  }

  /** On single options, the bit test is the clash relation. */
  lemma ClashByBits(a: Opt, b: Opt)
    requires !b.Min? && !b.Max?
    ensures Clash(a, b) <==> FlagConflict(b, Bit(a))
  {
  }

  /** A bit is in the union exactly when some option contributed it. */
  lemma {:induction false} BitsHas(items: seq<Opt>, f: Flag)
    ensures f in Bits(items) <==> exists i :: 0 <= i < |items| && f in Bit(items[i])
  {
    if items != [] {
      var n := |items| - 1;
      var p := items[..n];
      BitsHas(p, f);
      assert forall i :: 0 <= i < n ==> p[i] == items[i];
      if f in Bits(p) {
        var k :| 0 <= k < |p| && f in Bit(p[k]);
        assert f in Bit(items[k]);
      }
    }
  }

  /** A family's out-parameter is set exactly when an option of the family was read. */
  lemma {:induction false} LastArgSome(items: seq<Opt>, fam: Family)
    ensures LastArg(items, fam).Some? <==> exists i :: 0 <= i < |items| && FamilyOf(items[i]) == Some(fam)
  {
    if items != [] {
      var p := items[..|items| - 1];
      LastArgSome(p, fam);
      assert forall i :: 0 <= i < |p| ==> p[i] == items[i];
      if LastArg(p, fam).Some? {
        var k :| 0 <= k < |p| && FamilyOf(p[k]) == Some(fam);
        assert FamilyOf(items[k]) == Some(fam);
      }
    }
  }

  /** The value of a family is the value of one of the options read. */
  lemma {:induction false} LastArgIsSomeArg(items: seq<Opt>, fam: Family)
    requires LastArg(items, fam).Some?
    ensures exists i :: 0 <= i < |items| && FamilyOf(items[i]) == Some(fam) && items[i].arg == LastArg(items, fam).value
  {
    var n := |items| - 1;
    if FamilyOf(items[n]) != Some(fam) {
      var p := items[..n];
      LastArgIsSomeArg(p, fam);
      var k :| 0 <= k < |p| && FamilyOf(p[k]) == Some(fam) && p[k].arg == LastArg(p, fam).value;
      assert items[k] == p[k];
    }
  }
}
