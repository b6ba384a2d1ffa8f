/**
  What a successful parse guarantees to the commands, proved from the
  declarative `ParseSpec`.
 */
module ExFlagsLemmas {
  import opened Optional
  import opened ExFlags

  /** The raw value token a parse result holds for a family. */
  function ArgOf(p: Parsed, fam: Family): Option<string> {
    match fam
    case ExpireFamily => p.expire
    case VersionFamily => p.version
    case FlagsFamily => p.flagsArg
    case DefFamily => p.defaultValue
    case MinFamily => p.min
    case MaxFamily => p.max
  }

  /** The keywords that introduce a family's value. */
  predicate IsFamilyKeyword(token: string, fam: Family) {
    match fam
    case ExpireFamily =>
      CaseInsensitiveEquals(token, "ex") || CaseInsensitiveEquals(token, "exat")
      || CaseInsensitiveEquals(token, "px") || CaseInsensitiveEquals(token, "pxat")
    case VersionFamily => CaseInsensitiveEquals(token, "ver") || CaseInsensitiveEquals(token, "abs")
    case FlagsFamily => CaseInsensitiveEquals(token, "flags")
    case DefFamily => CaseInsensitiveEquals(token, "def")
    case MinFamily => CaseInsensitiveEquals(token, "min")
    case MaxFamily => CaseInsensitiveEquals(token, "max")
  }

  /** Every character of a string, lower-cased. */
  function LowerAll(s: string): string {
    seq(|s|, i requires 0 <= i < |s| => Lower(s[i]))
  }

  /** `strncasecmp` on strings of one length: equal once both are lower-cased. */
  lemma CaseInsensitiveEqualsLowered(token: string, keyword: string)
    ensures CaseInsensitiveEquals(token, keyword) <==> LowerAll(token) == LowerAll(keyword)
  {
    if LowerAll(token) == LowerAll(keyword) {
      assert |token| == |LowerAll(token)| == |keyword|;
      forall i | 0 <= i < |token| ensures Lower(token[i]) == Lower(keyword[i]) {
        assert LowerAll(token)[i] == LowerAll(keyword)[i];
      }
    }
  }

  lemma ClashSymmetric(a: Opt, b: Opt)
    ensures Clash(a, b) <==> Clash(b, a)
  {
  }

  /** Any two clashing options, in either order and however far apart, fail the parse. */
  lemma ClashAnywhereRejects(argv: seq<string>, start: nat, slots: Slots, allow: set<Flag>, i: nat, k: nat)
    requires LexFrom(argv, start, slots).Some?
    requires i < |LexFrom(argv, start, slots).value| && k < |LexFrom(argv, start, slots).value| && i != k
    requires Clash(LexFrom(argv, start, slots).value[i], LexFrom(argv, start, slots).value[k])
    ensures ParseSpec(argv, start, slots, allow) == None
  {
    var items := LexFrom(argv, start, slots).value;
    if k < i {
      ClashSymmetric(items[i], items[k]);
    }
  }

  /** Every flag of a successful parse is in the caller's allow-mask. */
  lemma ParsedFlagsAllowed(argv: seq<string>, start: nat, slots: Slots, allow: set<Flag>)
    requires ParseSpec(argv, start, slots, allow).Some?
    ensures ParseSpec(argv, start, slots, allow).value.flags <= allow
  {
  }

  /** Two bits no single option carries, and whose carriers always clash. */
  lemma {:induction false} ExclusiveBits(items: seq<Opt>, f: Flag, g: Flag)
    requires ClashFree(items)
    requires forall a, b :: f in Bit(a) && g in Bit(b) ==> Clash(a, b) && Clash(b, a)
    requires forall a :: !(f in Bit(a) && g in Bit(a))
    ensures !(f in Bits(items) && g in Bits(items))
  {
    if items != [] {
      var n := |items| - 1;
      var p := items[..n];
      var x := items[n];
      assert ClashFree(p) by {
        forall i, k | 0 <= i < k < |p| ensures !Clash(p[i], p[k]) {
          assert p[i] == items[i] && p[k] == items[k];
        }
      }
      assert forall i :: 0 <= i < |p| ==> !Clash(p[i], x) by {
        forall i | 0 <= i < |p| ensures !Clash(p[i], x) {
          assert p[i] == items[i];
        }
      }
      ExclusiveBits(p, f, g);
      BitsHas(p, f);
      BitsHas(p, g);
    }
  }

  /** NX and XX are never both accepted. */
  lemma ParsedNxXxExclusive(argv: seq<string>, start: nat, slots: Slots, allow: set<Flag>)
    requires ParseSpec(argv, start, slots, allow).Some?
    ensures var p := ParseSpec(argv, start, slots, allow).value;
      !(SetNx in p.flags && SetXx in p.flags)
  {
    CarriersClash(SetNx, SetXx);
    ExclusiveBits(LexFrom(argv, start, slots).value, SetNx, SetXx);
  }

  /**
    At most one expiry directive: never EX-type and PX-type together, never
    KEEPTTL with either; ABS_EXPIRE only comes with EXAT or PXAT.
   */
  lemma ParsedOneExpiry(argv: seq<string>, start: nat, slots: Slots, allow: set<Flag>)
    requires ParseSpec(argv, start, slots, allow).Some?
    ensures var p := ParseSpec(argv, start, slots, allow).value;
      && !(SetEx in p.flags && SetPx in p.flags)
      && (SetKeepTtl in p.flags ==> SetEx !in p.flags && SetPx !in p.flags)
      && (SetAbsExpire in p.flags ==> SetEx in p.flags || SetPx in p.flags)
  {
    var items := LexFrom(argv, start, slots).value;
    CarriersClash(SetEx, SetPx);
    ExclusiveBits(items, SetEx, SetPx);
    CarriersClash(SetKeepTtl, SetEx);
    ExclusiveBits(items, SetKeepTtl, SetEx);
    CarriersClash(SetKeepTtl, SetPx);
    ExclusiveBits(items, SetKeepTtl, SetPx);
    AbsExpireComesWithExpiry(items);
  }

  /** The pairs of bits whose carriers always clash, and which no single option carries together. */
  predicate ExclusivePair(f: Flag, g: Flag) {
    || (f == SetNx && g == SetXx) || (f == SetEx && g == SetPx)
    || (f == SetKeepTtl && g == SetEx) || (f == SetKeepTtl && g == SetPx)
    || (f == SetWithVer && g == SetWithAbsVer)
  }

  lemma CarriersClash(f: Flag, g: Flag)
    requires ExclusivePair(f, g)
    ensures forall a, b :: f in Bit(a) && g in Bit(b) ==> Clash(a, b) && Clash(b, a)
    ensures forall a :: !(f in Bit(a) && g in Bit(a))
  {
  }

  lemma {:induction false} AbsExpireComesWithExpiry(items: seq<Opt>)
    ensures SetAbsExpire in Bits(items) ==> SetEx in Bits(items) || SetPx in Bits(items)
  {
    if items != [] {
      AbsExpireComesWithExpiry(items[..|items| - 1]);
    }
  }

  /** VER and ABS are never both accepted. */
  lemma ParsedOneVersion(argv: seq<string>, start: nat, slots: Slots, allow: set<Flag>)
    requires ParseSpec(argv, start, slots, allow).Some?
    ensures var p := ParseSpec(argv, start, slots, allow).value;
      !(SetWithVer in p.flags && SetWithAbsVer in p.flags)
  {
    CarriersClash(SetWithVer, SetWithAbsVer);
    ExclusiveBits(LexFrom(argv, start, slots).value, SetWithVer, SetWithAbsVer);
  }

  /** A family's value is set exactly when one of its flags is (no quantifiers: by induction). */
  lemma {:induction false} ValuesMatchBits(items: seq<Opt>)
    ensures var b := Bits(items);
      && (LastArg(items, ExpireFamily).Some? <==> SetEx in b || SetPx in b)
      && (LastArg(items, VersionFamily).Some? <==> SetWithVer in b || SetWithAbsVer in b)
      && (LastArg(items, FlagsFamily).Some? <==> SetWithFlags in b)
      && (LastArg(items, DefFamily).Some? <==> SetWithDef in b)
      && (LastArg(items, MinFamily).Some? || LastArg(items, MaxFamily).Some? <==> SetWithBoundary in b)
  {
    if items != [] {
      ValuesMatchBits(items[..|items| - 1]);
    }
  }

  /** A family's value token is reported exactly when its flag is set. */
  lemma ParsedValuesMatchFlags(argv: seq<string>, start: nat, slots: Slots, allow: set<Flag>)
    requires ParseSpec(argv, start, slots, allow).Some?
    ensures var p := ParseSpec(argv, start, slots, allow).value;
      && (p.expire.Some? <==> SetEx in p.flags || SetPx in p.flags)
      && (p.version.Some? <==> SetWithVer in p.flags || SetWithAbsVer in p.flags)
      && (p.flagsArg.Some? <==> SetWithFlags in p.flags)
      && (p.defaultValue.Some? <==> SetWithDef in p.flags)
      && (p.min.Some? || p.max.Some? <==> SetWithBoundary in p.flags)
  {
    ValuesMatchBits(LexFrom(argv, start, slots).value);
  }

  predicate RespectsSlots(items: seq<Opt>, slots: Slots) {
    forall n :: 0 <= n < |items| && FamilyOf(items[n]).Some? ==> SlotOpen(slots, FamilyOf(items[n]).value)
  }

  /** Every lexed option keeps to the out-parameters the caller passed. */
  lemma {:induction false} LexRespectsSlots(argv: seq<string>, j: nat, slots: Slots, items: seq<Opt>)
    requires LexFrom(argv, j, slots) == Some(items)
    ensures RespectsSlots(items, slots)
    decreases |argv| - j
  {
    if items != [] {
      LexSplit(argv, j, slots, items);
      var rest := items[1..];
      LexRespectsSlots(argv, j + Width(items[0]), slots, rest);
      forall n | 0 <= n < |items| && FamilyOf(items[n]).Some?
        ensures SlotOpen(slots, FamilyOf(items[n]).value)
      {
        if n > 0 {
          assert items[n] == rest[n - 1];
        }
      }
    }
  }

  /** A keyword whose out-parameter is absent is never recognised (EX on EXAPPEND is an unknown token). */
  lemma ParsedClosedSlotEmpty(argv: seq<string>, start: nat, slots: Slots, allow: set<Flag>, fam: Family)
    requires ParseSpec(argv, start, slots, allow).Some?
    requires !SlotOpen(slots, fam)
    ensures ArgOf(ParseSpec(argv, start, slots, allow).value, fam) == None
  {
    var items := LexFrom(argv, start, slots).value;
    LexRespectsSlots(argv, start, slots, items);
    LastArgSome(items, fam);
  }

  /** Each lexed option is what the token at some index `i` classifies to. */
  lemma {:induction false} LexValueFollowsKeyword(argv: seq<string>, j: nat, slots: Slots, items: seq<Opt>, n: nat) returns (i: nat)
    requires LexFrom(argv, j, slots) == Some(items) && n < |items|
    ensures j <= i < |argv|
    ensures Classify(argv[i], NextToken(argv, i), slots) == Some(items[n])
    decreases |argv| - j
  {
    LexSplit(argv, j, slots, items);
    if n == 0 {
      i := j;
    } else {
      i := LexValueFollowsKeyword(argv, j + Width(items[0]), slots, items[1..], n - 1);
    }
  }

  /** A non-empty lexed list is its first option, then the options lexed after it. */
  lemma LexSplit(argv: seq<string>, j: nat, slots: Slots, items: seq<Opt>)
    requires LexFrom(argv, j, slots) == Some(items) && items != []
    ensures j < |argv| && Classify(argv[j], NextToken(argv, j), slots) == Some(items[0])
    ensures j + Width(items[0]) <= |argv| && LexFrom(argv, j + Width(items[0]), slots) == Some(items[1..])
  {
    assert j < |argv|;
    var o := Classify(argv[j], NextToken(argv, j), slots).value;
    var rest := LexFrom(argv, j + Width(o), slots).value;
    assert items == [o] + rest;
    assert items[1..] == rest;
  }

  /** The value a successful parse reports for a family is the token after one of its keywords. */
  lemma ParsedValueFollowsKeyword(argv: seq<string>, start: nat, slots: Slots, allow: set<Flag>, fam: Family)
    requires ParseSpec(argv, start, slots, allow).Some?
    requires ArgOf(ParseSpec(argv, start, slots, allow).value, fam).Some?
    ensures exists i :: (start <= i && i + 1 < |argv| && IsFamilyKeyword(argv[i], fam)
                         && argv[i + 1] == ArgOf(ParseSpec(argv, start, slots, allow).value, fam).value)
  {
    var items := LexFrom(argv, start, slots).value;
    var v := ArgOf(ParseSpec(argv, start, slots, allow).value, fam).value;
    ArgOfIsLastArg(argv, start, slots, allow, fam);
    var i := ValueTokenIndex(argv, start, slots, fam);
    assert start <= i && i + 1 < |argv| && IsFamilyKeyword(argv[i], fam) && argv[i + 1] == v;
  }

  lemma ArgOfIsLastArg(argv: seq<string>, start: nat, slots: Slots, allow: set<Flag>, fam: Family)
    requires ParseSpec(argv, start, slots, allow).Some?
    ensures ArgOf(ParseSpec(argv, start, slots, allow).value, fam) == LastArg(LexFrom(argv, start, slots).value, fam)
  {
  }

  /** Where the last value of a family was read. */
  lemma ValueTokenIndex(argv: seq<string>, start: nat, slots: Slots, fam: Family) returns (i: nat)
    requires LexFrom(argv, start, slots).Some?
    requires LastArg(LexFrom(argv, start, slots).value, fam).Some?
    ensures start <= i && i + 1 < |argv| && IsFamilyKeyword(argv[i], fam)
    ensures argv[i + 1] == LastArg(LexFrom(argv, start, slots).value, fam).value
  {
    var items := LexFrom(argv, start, slots).value;
    LastArgIsSomeArg(items, fam);
    var n :| 0 <= n < |items| && FamilyOf(items[n]) == Some(fam) && items[n].arg == LastArg(items, fam).value;
    i := LexValueFollowsKeyword(argv, start, slots, items, n);
    ClassifiedValue(argv, i, slots, items[n]);
  }

  /** A value-taking option is written with one of its family's keywords and takes the next token as its value. */
  lemma ClassifiedValue(argv: seq<string>, i: nat, slots: Slots, o: Opt)
    requires i < |argv| && Classify(argv[i], NextToken(argv, i), slots) == Some(o) && FamilyOf(o).Some?
    ensures i + 1 < |argv| && IsFamilyKeyword(argv[i], FamilyOf(o).value) && argv[i + 1] == o.arg
  {
    FamilyKeyword(argv[i], o);
  }

  lemma FamilyKeyword(token: string, o: Opt)
    requires FamilyOf(o).Some? && CaseInsensitiveEquals(token, KeywordOf(o))
    ensures IsFamilyKeyword(token, FamilyOf(o).value)
  {
  }

  /** A successful lexing of a non-empty suffix starts with the option its first token names. */
  lemma LexFirst(argv: seq<string>, j: nat, slots: Slots)
    requires j < |argv| && LexFrom(argv, j, slots).Some?
    ensures Classify(argv[j], NextToken(argv, j), slots).Some?
    ensures |LexFrom(argv, j, slots).value| > 0
    ensures LexFrom(argv, j, slots).value[0] == Classify(argv[j], NextToken(argv, j), slots).value
  {
  }

  /** The bits of any lexed option are among the bits of the whole list. */
  lemma BitsContainEach(items: seq<Opt>, n: nat)
    requires n < |items|
    ensures Bit(items[n]) <= Bits(items)
  {
    forall f | f in Bit(items[n]) ensures f in Bits(items) {
      BitsHas(items, f);
    }
  }

  /** One step of the lexer: a recognised option followed by the options after it. */
  lemma LexCons(argv: seq<string>, j: nat, slots: Slots, o: Opt, rest: seq<Opt>)
    requires j < |argv| && Classify(argv[j], NextToken(argv, j), slots) == Some(o)
    requires LexFrom(argv, j + Width(o), slots) == Some(rest)
    ensures LexFrom(argv, j, slots) == Some([o] + rest)
  {
  }
}
