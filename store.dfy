/**
  The command handlers as they run: a store whose entry and deadline maps
  are updated in place, one method per command, each returning at its
  first failed check as the handler does. Every method is proved to reply,
  leave the store and replicate exactly as the command's function in
  `Commands` says.
 */
module Server {
  import opened Optional
  import opened Decimal
  import opened ExFlags
  import opened Keyspace
  import opened Replication
  import Commands

  class Store {
    var entries: map<string, Entry>
    var expires: map<string, int>

    ghost predicate Valid()
      reads this
    {
      Keyspace.Valid(Db(entries, expires))
    }

    function State(): Db
      reads this
    {
      Db(entries, expires)
    }

    constructor ()
      ensures Valid() && State() == Db(map[], map[])
    {
      entries := map[];
      expires := map[];
    }

    /**
      The TTL step shared by the writing commands: an expiry argument sets the
      key's deadline, and otherwise the TTL is cleared unless KEEPTTL is given.
      Returns the deadline set, if any, for the replicated `PXAT`, and whether
      the TTL was kept, for the replicated KEEPTTL.
     */
    method ApplyExpiry(key: string, expireArg: Option<string>, expire: int, flags: set<Flag>, now: int)
      returns (deadline: Option<int>, retained: bool)
      requires Valid() && key in entries && expire == Num(expireArg)
      modifies this
      ensures Valid() && entries == old(entries)
      ensures expires == ApplyTtl(old(expires), key, TtlActionOf(expireArg, flags, now), now)
      ensures deadline == Commands.ReplicatedDeadline(TtlActionOf(expireArg, flags, now), now)
      ensures retained == TtlActionOf(expireArg, flags, now).Retain?
    {
      deadline, retained := None, false;
      if expireArg.Some? {
        var ms := expire;
        if SetEx in flags {
          ms := ms * 1000;
        }
        if SetAbsExpire in flags {
          ms := ms - now;
          if ms < 0 {
            ms := 0;
          }
        }
        expires := expires[key := now + ms];
        deadline := Some(now + ms);
      } else if SetKeepTtl !in flags {
        expires := expires - {key};
      } else {
        retained := true;
      }
    }

    /** EXSET. */
    method ExSet(argv: seq<string>, now: int) returns (reply: Reply, propagated: seq<seq<string>>)
      requires Valid()
      modifies this
      ensures Valid()
      ensures Outcome(reply, State(), propagated) == Commands.ExSet(old(State()), argv, now)
    {
      if |argv| < 3 {
        return Err(WrongArity), [];
      }
      var parsed := ParseExFlags(argv, 3, Commands.ExSetSlots, Commands.ExSetAllow);
      if parsed.None? {
        return Err(SyntaxError), [];
      }
      var p := parsed.value;
      var expire, version, flags := 0, 0, 0;
      if p.expire.Some? {
        var n := ParseLongLong(p.expire.value);
        if n.None? {
          return Err(SyntaxError), [];
        }
        expire := n.value;
      }
      if p.version.Some? {
        var n := ParseLongLong(p.version.value);
        if n.None? {
          return Err(SyntaxError), [];
        }
        version := n.value;
      }
      if p.flagsArg.Some? {
        var n := ParseLongLong(p.flagsArg.value);
        if n.None? {
          return Err(SyntaxError), [];
        }
        flags := n.value;
      }
      if (p.expire.Some? && expire <= 0) || version < 0 || flags < 0 || flags > MaxUint32 {
        return Err(SyntaxError), [];
      }
      var key := argv[1];
      var obj: TairObj;
      if key !in entries {
        if SetXx in p.flags {
          return Null, [];
        }
        obj := Commands.Fresh;
      } else {
        if !entries[key].Tair? {
          return Err(WrongType), [];
        }
        obj := entries[key].obj;
        if SetNx in p.flags {
          return Null, [];
        }
        if SetWithVer in p.flags && version != 0 && version != obj.version {
          return Err(VersionError), [];
        }
      }
      assert version == Num(p.version) && flags == Num(p.flagsArg) && expire == Num(p.expire);
      reply, propagated := ExSetWrite(argv, p, obj, version, flags, expire, now);
    }

    /** The write half of EXSET: version, payload, flags, TTL, replicated form and reply. */
    method ExSetWrite(argv: seq<string>, p: Parsed, obj: TairObj, version: int, flags: int, expire: int, now: int)
      returns (reply: Reply, propagated: seq<seq<string>>)
      requires Valid() && |argv| >= 3
      requires version == Num(p.version) && flags == Num(p.flagsArg) && expire == Num(p.expire)
      requires 0 <= version && 0 <= flags <= MaxUint32
      modifies this
      ensures Valid()
      ensures Outcome(reply, State(), propagated) == Commands.ExSetWrite(old(State()), argv, p, obj, now)
    {
      var key := argv[1];
      var stored := obj;
      if SetWithAbsVer in p.flags {
        stored := stored.(version := version);
      } else {
        stored := stored.(version := Bump(stored.version));
      }
      stored := stored.(value := argv[2]);
      if SetWithFlags in p.flags {
        stored := stored.(flags := flags);
      }
      entries := entries[key := Tair(stored)];
      var deadline, retained := ApplyExpiry(key, p.expire, expire, p.flags, now);
      propagated := [ExSetForm(key, argv[2], stored.version, deadline, if p.flagsArg.Some? then Some(stored.flags) else None, retained)];
      reply := if ReturnWithVer in p.flags then Int(ToSigned(stored.version)) else Status("OK");
    }

    /** EXGET: a read; the store is not modified. */
    method ExGet(argv: seq<string>) returns (reply: Reply)
      ensures reply == Commands.ExGet(State(), argv).reply
    {
      if |argv| < 2 || |argv| > 3 {
        return Err(WrongArity);
      }
      if |argv| == 3 && !CaseInsensitiveEquals(argv[2], "withflags") {
        return Err(SyntaxError);
      }
      var key := argv[1];
      if key in entries && !entries[key].Tair? {
        return Err(WrongType);
      }
      if key !in entries {
        return Null;
      }
      var o := entries[key].obj;
      if |argv| == 2 {
        reply := Arr([Bulk(o.value), Int(ToSigned(o.version))]);
      } else {
        reply := Arr([Bulk(o.value), Int(ToSigned(o.version)), Int(o.flags)]);
      }
    }

    /** EXINCRBY. */
    method ExIncrBy(argv: seq<string>, now: int) returns (reply: Reply, propagated: seq<seq<string>>)
      requires Valid()
      modifies this
      ensures Valid()
      ensures reply == Commands.ExIncrBy(old(State()), argv, now).reply
      ensures State() == Commands.ExIncrBy(old(State()), argv, now).db
      ensures propagated == Commands.ExIncrBy(old(State()), argv, now).propagated
    {
      if |argv| < 3 {
        return Err(WrongArity), [];
      }
      var parsed := ParseExFlags(argv, 3, Commands.IncrSlots, Commands.IncrAllow);
      if parsed.None? {
        return Err(SyntaxError), [];
      }
      var p := parsed.value;
      var key := argv[1];
      if key in entries && !entries[key].Tair? {
        return Err(WrongType), [];
      }
      var err, incr, defaultValue, version, min, max, expire := IncrNumbers(argv, p);
      if err.Some? {
        return Err(err.value), [];
      }
      reply, propagated := IncrOnKey(argv, p, incr, defaultValue, version, min, max, expire, now);
    }

    /** The number checks of EXINCRBY: the first that fails gives the error; otherwise the converted values. */
    static method IncrNumbers(argv: seq<string>, p: Parsed)
      returns (err: Option<Error>, incr: int, defaultValue: int, version: int, min: int, max: int, expire: int)
      requires |argv| >= 3
      ensures err == Commands.IncrCheck(argv, p)
      ensures err.None? ==> ParseLongLong(argv[2]) == Some(incr) && defaultValue == Num(p.defaultValue)
      ensures err.None? ==> version == Num(p.version) && expire == Num(p.expire)
      ensures err.None? ==> (p.min.Some? ==> min == Num(p.min)) && (p.max.Some? ==> max == Num(p.max))
    {
      defaultValue, expire, version, min, max := 0, 0, 0, 0, 0;
      var incrArg := ParseLongLong(argv[2]);
      if incrArg.None? {
        return Some(NotInteger), 0, 0, 0, 0, 0, 0;
      }
      incr := incrArg.value;
      if p.defaultValue.Some? {
        var n := ParseLongLong(p.defaultValue.value);
        if n.None? {
          return Some(NotInteger), 0, 0, 0, 0, 0, 0;
        }
        defaultValue := n.value;
      }
      if p.expire.Some? {
        var n := ParseLongLong(p.expire.value);
        if n.None? {
          return Some(SyntaxError), 0, 0, 0, 0, 0, 0;
        }
        expire := n.value;
      }
      if p.version.Some? {
        var n := ParseLongLong(p.version.value);
        if n.None? {
          return Some(SyntaxError), 0, 0, 0, 0, 0, 0;
        }
        version := n.value;
      }
      if (p.expire.Some? && expire <= 0) || version < 0 {
        return Some(SyntaxError), 0, 0, 0, 0, 0, 0;
      }
      if p.min.Some? {
        var n := ParseLongLong(p.min.value);
        if n.None? {
          return Some(MinMaxError), 0, 0, 0, 0, 0, 0;
        }
        min := n.value;
      }
      if p.max.Some? {
        var n := ParseLongLong(p.max.value);
        if n.None? {
          return Some(MinMaxError), 0, 0, 0, 0, 0, 0;
        }
        max := n.value;
      }
      if p.min.Some? && p.max.Some? && max < min {
        return Some(MinMaxError), 0, 0, 0, 0, 0, 0;
      }
      err := None;
    }

    /** The key-dependent checks of EXINCRBY. */
    method IncrOnKey(argv: seq<string>, p: Parsed, incr: int, defaultValue: int,
                     version: int, min: int, max: int, expire: int, now: int)
      returns (reply: Reply, propagated: seq<seq<string>>)
      requires Valid() && |argv| >= 3 && ParseLongLong(argv[2]) == Some(incr)
      requires argv[1] in entries ==> entries[argv[1]].Tair?
      requires version == Num(p.version) && expire == Num(p.expire) && 0 <= version
      requires defaultValue == Num(p.defaultValue)
      requires p.min.Some? ==> min == Num(p.min)
      requires p.max.Some? ==> max == Num(p.max)
      modifies this
      ensures Valid()
      ensures reply == Commands.IncrOnKey(old(State()), argv, p, now).reply
      ensures State() == Commands.IncrOnKey(old(State()), argv, p, now).db
      ensures propagated == Commands.IncrOnKey(old(State()), argv, p, now).propagated
    {
      var key := argv[1];
      var obj: TairObj;
      var value: int;
      var isNew := key !in entries;
      if isNew {
        if SetXx in p.flags {
          return Null, [];
        }
        obj := Commands.Fresh;
        value := defaultValue;
      } else {
        if SetNx in p.flags {
          return Null, [];
        }
        obj := entries[key].obj;
        var current := ParseLongLong(obj.value);
        if current.None? {
          return Err(NotInteger), [];
        }
        value := current.value;
        if SetWithVer in p.flags && version != 0 && version != obj.version {
          return Err(VersionError), [];
        }
      }
      reply, propagated := IncrWrite(argv, p, obj, value, isNew, incr, version, min, max, expire, now);
    }

    /** The arithmetic and write half of EXINCRBY. */
    method IncrWrite(argv: seq<string>, p: Parsed, obj: TairObj, value: int, isNew: bool,
                     incr: int, version: int, min: int, max: int, expire: int, now: int)
      returns (reply: Reply, propagated: seq<seq<string>>)
      requires Valid() && |argv| >= 3 && ParseLongLong(argv[2]) == Some(incr)
      requires version == Num(p.version) && expire == Num(p.expire) && 0 <= version
      requires p.min.Some? ==> min == Num(p.min)
      requires p.max.Some? ==> max == Num(p.max)
      modifies this
      ensures Valid()
      ensures reply == Commands.IncrWrite(old(State()), argv, p, obj, value, isNew, now).reply
      ensures State() == Commands.IncrWrite(old(State()), argv, p, obj, value, isNew, now).db
      ensures propagated == Commands.IncrWrite(old(State()), argv, p, obj, value, isNew, now).propagated
    {
      var key := argv[1];
      var result := value;
      if !(SetWithDef in p.flags && isNew) {
        if (incr < 0 && result < 0 && incr < MinInt64 - result)
           || (incr > 0 && result > 0 && incr > MaxInt64 - result)
           || (p.max.Some? && result + incr > max)
           || (p.min.Some? && result + incr < min)
        {
          assert Commands.IncrRejected(value, incr, NumOpt(p.min), NumOpt(p.max));
          return Err(OverflowError), [];
        }
        assert !Commands.IncrRejected(value, incr, NumOpt(p.min), NumOpt(p.max));
        result := result + incr;
      }
      if SetNoNegative in p.flags && result < 0 {
        result := 0;
      }
      reply, propagated := IncrStore(key, p, obj, result, version, expire, now);
    }

    /** EXINCRBY's write. */
    method IncrStore(key: string, p: Parsed, obj: TairObj, result: int, version: int, expire: int, now: int)
      returns (reply: Reply, propagated: seq<seq<string>>)
      requires Valid() && version == Num(p.version) && expire == Num(p.expire) && 0 <= version
      modifies this
      ensures Valid()
      ensures Outcome(reply, State(), propagated) == Commands.IncrStore(old(State()), key, p, obj, result, now)
    {
      var stored := obj.(value := FormatLongLong(result));
      if SetWithAbsVer in p.flags {
        stored := stored.(version := version);
      } else {
        stored := stored.(version := Bump(stored.version));
      }
      assert stored == TairObj(NewVersion(obj.version, p.flags, version), obj.flags, FormatLongLong(result));
      entries := entries[key := Tair(stored)];
      var deadline, retained := ApplyExpiry(key, p.expire, expire, p.flags, now);
      propagated := [ExSetForm(key, stored.value, stored.version, deadline, None, retained)];
      if ReturnWithVer in p.flags {
        reply := Arr([Int(result), Int(ToSigned(stored.version))]);
      } else {
        reply := Int(result);
      }
    }

    /** EXSETVER. */
    method ExSetVer(argv: seq<string>) returns (reply: Reply, propagated: seq<seq<string>>)
      requires Valid()
      modifies this
      ensures Valid()
      ensures Outcome(reply, State(), propagated) == Commands.ExSetVer(old(State()), argv)
    {
      if |argv| != 3 {
        return Err(WrongArity), [];
      }
      var key := argv[1];
      if key in entries && !entries[key].Tair? {
        return Err(WrongType), [];
      }
      if key !in entries {
        return Int(0), [];
      }
      var obj := entries[key].obj;
      var version := ParseLongLong(argv[2]);
      if version.None? || version.value <= 0 {
        return Err(SyntaxError), [];
      }
      propagated := [argv];
      entries := entries[key := Tair(obj.(version := version.value))];
      reply := Int(1);
    }

    /** EXCAS. */
    method ExCas(argv: seq<string>, now: int) returns (reply: Reply, propagated: seq<seq<string>>)
      requires Valid()
      modifies this
      ensures Valid()
      ensures Outcome(reply, State(), propagated) == Commands.ExCas(old(State()), argv, now)
    {
      if |argv| < 4 {
        return Err(WrongArity), [];
      }
      var parsed := ParseExFlags(argv, 4, Commands.ExpireSlots, Commands.CasAllow);
      if parsed.None? {
        return Err(SyntaxError), [];
      }
      var p := parsed.value;
      var expire := 0;
      if p.expire.Some? {
        var n := ParseLongLong(p.expire.value);
        if n.None? {
          return Err(SyntaxError), [];
        }
        expire := n.value;
      }
      var versionArg := ParseLongLong(argv[3]);
      if versionArg.None? {
        return Err(VersionNotInteger), [];
      }
      var version := versionArg.value;
      if (p.expire.Some? && expire <= 0) || version < 0 {
        return Err(SyntaxError), [];
      }
      var key := argv[1];
      if key in entries && !entries[key].Tair? {
        return Err(WrongType), [];
      }
      if key !in entries {
        return Int(-1), [];
      }
      var obj := entries[key].obj;
      if obj.version != version {
        return Arr([StaleVersion, Bulk(obj.value), Int(ToSigned(obj.version))]), [];
      }
      obj := obj.(value := argv[2]);
      obj := obj.(version := Bump(obj.version));
      entries := entries[key := Tair(obj)];
      var deadline, retained := ApplyExpiry(key, p.expire, expire, p.flags, now);
      propagated := [ExSetForm(key, obj.value, obj.version, deadline, None, retained)];
      reply := Arr([Status("OK"), Status(""), Int(ToSigned(obj.version))]);
    }

    /** EXCAD. */
    method ExCad(argv: seq<string>) returns (reply: Reply, propagated: seq<seq<string>>)
      requires Valid()
      modifies this
      ensures Valid()
      ensures Outcome(reply, State(), propagated) == Commands.ExCad(old(State()), argv)
    {
      if |argv| != 3 {
        return Err(WrongArity), [];
      }
      var key := argv[1];
      if key in entries && !entries[key].Tair? {
        return Err(WrongType), [];
      }
      var version := ParseLongLong(argv[2]);
      if version.None? {
        return Err(SyntaxError), [];
      }
      if key !in entries {
        return Int(-1), [];
      }
      // The `long long` argument converted to `uint64_t` for the comparison.
      if entries[key].obj.version != version.value % (MaxUint64 + 1) {
        return Int(0), [];
      }
      propagated := [DelForm(key)];
      entries := entries - {key};
      expires := expires - {key};
      reply := Int(1);
    }

    /** CAD. */
    method Cad(argv: seq<string>) returns (reply: Reply, propagated: seq<seq<string>>)
      requires Valid()
      modifies this
      ensures Valid()
      ensures Outcome(reply, State(), propagated) == Commands.Cad(old(State()), argv)
    {
      if |argv| != 3 {
        return Err(WrongArity), [];
      }
      var key := argv[1];
      if key in entries && !entries[key].Plain? {
        return Err(WrongType), [];
      }
      if key !in entries {
        return Int(-1), [];
      }
      if entries[key].s != argv[2] {
        return Int(0), [];
      }
      entries := entries - {key};
      expires := expires - {key};
      propagated := [DelForm(key)];
      reply := Int(1);
    }

    /** CAS. */
    method Cas(argv: seq<string>, now: int) returns (reply: Reply, propagated: seq<seq<string>>)
      requires Valid()
      modifies this
      ensures Valid()
      ensures Outcome(reply, State(), propagated) == Commands.Cas(old(State()), argv, now)
    {
      if |argv| < 4 {
        return Err(WrongArity), [];
      }
      var parsed := ParseExFlags(argv, 4, Commands.ExpireSlots, Commands.CasAllow);
      if parsed.None? {
        return Err(SyntaxError), [];
      }
      var p := parsed.value;
      var expire := 0;
      if p.expire.Some? {
        var n := ParseLongLong(p.expire.value);
        if n.None? {
          return Err(SyntaxError), [];
        }
        expire := n.value;
      }
      if p.expire.Some? && expire <= 0 {
        return Err(SyntaxError), [];
      }
      var key := argv[1];
      if key in entries && !entries[key].Plain? {
        return Err(WrongType), [];
      }
      if key !in entries {
        return Int(-1), [];
      }
      if entries[key].s != argv[2] {
        return Int(0), [];
      }
      entries := entries[key := Plain(argv[3])];
      var deadline, retained := ApplyExpiry(key, p.expire, expire, p.flags, now);
      propagated := [SetForm(key, argv[3])];
      if deadline.Some? {
        propagated := propagated + [PexpireAtForm(key, deadline.value)];
      }
      reply := Int(1);
    }

    /** EXAPPEND (`atFront` false) and EXPREPEND (`atFront` true). */
    method ExConcat(argv: seq<string>, atFront: bool) returns (reply: Reply, propagated: seq<seq<string>>)
      requires Valid()
      modifies this
      ensures Valid()
      ensures Outcome(reply, State(), propagated) == Commands.ExConcat(old(State()), argv, atFront)
    {
      if |argv| < 3 {
        return Err(WrongArity), [];
      }
      var parsed := ParseExFlags(argv, 3, Commands.AppendSlots, Commands.AppendAllow);
      if parsed.None? {
        return Err(SyntaxError), [];
      }
      var p := parsed.value;
      var version := 0;
      if p.version.Some? {
        var n := ParseLongLong(p.version.value);
        if n.None? {
          return Err(SyntaxError), [];
        }
        version := n.value;
      }
      if version < 0 {
        return Err(SyntaxError), [];
      }
      var key := argv[1];
      var obj: TairObj;
      if key !in entries {
        if SetXx in p.flags {
          return Null, [];
        }
        obj := TairObj(0, 0, argv[2]);
      } else {
        if SetNx in p.flags {
          return Null, [];
        }
        if !entries[key].Tair? {
          return Err(WrongType), [];
        }
        obj := entries[key].obj;
        if SetWithVer in p.flags && version != 0 && version != obj.version {
          return Err(VersionError), [];
        }
        if atFront {
          obj := obj.(value := argv[2] + obj.value);
        } else {
          obj := obj.(value := obj.value + argv[2]);
        }
      }
      if SetWithAbsVer in p.flags {
        obj := obj.(version := version);
      } else {
        obj := obj.(version := Bump(obj.version));
      }
      entries := entries[key := Tair(obj)];
      propagated := [argv];
      reply := Int(ToSigned(obj.version));
    }

    /** EXAPPEND. */
    method ExAppend(argv: seq<string>) returns (reply: Reply, propagated: seq<seq<string>>)
      requires Valid()
      modifies this
      ensures Valid()
      ensures Outcome(reply, State(), propagated) == Commands.ExAppend(old(State()), argv)
    {
      reply, propagated := ExConcat(argv, false);
    }

    /** EXPREPEND. */
    method ExPrepend(argv: seq<string>) returns (reply: Reply, propagated: seq<seq<string>>)
      requires Valid()
      modifies this
      ensures Valid()
      ensures Outcome(reply, State(), propagated) == Commands.ExPrepend(old(State()), argv)
    {
      reply, propagated := ExConcat(argv, true);
    }

    /** EXGAE. */
    method ExGae(argv: seq<string>, now: int) returns (reply: Reply, propagated: seq<seq<string>>)
      requires Valid()
      modifies this
      ensures Valid()
      ensures Outcome(reply, State(), propagated) == Commands.ExGae(old(State()), argv, now)
    {
      if |argv| < 4 {
        return Err(WrongArity), [];
      }
      var parsed := ParseExFlags(argv, 2, Commands.ExpireSlots, Commands.GaeAllow);
      if parsed.None? {
        return Err(SyntaxError), [];
      }
      var p := parsed.value;
      Commands.GaeParseHasExpire(argv);
      var n := ParseLongLong(p.expire.value);
      if n.None? || n.value <= 0 {
        return Err(SyntaxError), [];
      }
      var key := argv[1];
      if key in entries && !entries[key].Tair? {
        return Err(WrongType), [];
      }
      if key !in entries {
        return Null, [];
      }
      var deadline, retained := ApplyExpiry(key, p.expire, n.value, p.flags, now);
      var o := entries[key].obj;
      propagated := [argv];
      reply := Arr([Bulk(o.value), Int(ToSigned(o.version)), Int(o.flags)]);
    }
  }
}
