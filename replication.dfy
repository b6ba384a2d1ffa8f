/**
  The command forms written to replicas and to the append-only file. The
  writing commands do not replicate themselves: they replicate an `EXSET` that
  states the result (absolute version, absolute deadline), so that replaying
  it does not depend on the replica's clock or on relative arguments.
 */
module Replication {
  import opened Optional
  import opened Decimal
  import opened Keyspace

  /**
    A version as `RedisModule_CreateStringFromLongLong` writes it: the `uint64_t`
    is passed as a `long long`, so versions above the signed range come out negative.
   */
  function VersionText(v: u64): (s: string)
    ensures v <= MaxInt64 ==> ParseLongLong(s) == Some(v)
    ensures v > MaxInt64 ==> ParseLongLong(s).Some? && ParseLongLong(s).value < 0
  {
    ParseFormat(ToSigned(v));
    FormatLongLong(ToSigned(v))
  }

  /**
    `EXSET key value ABS version [PXAT deadline] [KEEPTTL] [FLAGS flags]`: the
    rewritten form, carrying KEEPTTL when the write kept the key's TTL.
   */
  function ExSetForm(key: string, value: string, version: u64, pxat: Option<int>, flags: Option<u32>, keepTtl: bool): (cmd: seq<string>)
    ensures |cmd| == 5 + (if pxat.Some? then 2 else 0) + (if keepTtl then 1 else 0) + (if flags.Some? then 2 else 0)
    ensures cmd[..5] == ["EXSET", key, value, "ABS", VersionText(version)]
    ensures pxat.Some? ==> cmd[5] == "PXAT" && cmd[6] == FormatLongLong(pxat.value)
    ensures keepTtl ==> cmd[if pxat.Some? then 7 else 5] == "KEEPTTL"
    ensures flags.Some? ==> cmd[|cmd| - 2] == "FLAGS" && cmd[|cmd| - 1] == FormatLongLong(flags.value)
  {
    ["EXSET", key, value, "ABS", VersionText(version)]
    + (if pxat.Some? then ["PXAT", FormatLongLong(pxat.value)] else [])
    + (if keepTtl then ["KEEPTTL"] else [])
    + (if flags.Some? then ["FLAGS", FormatLongLong(flags.value)] else [])
  }

  /**
    The rewritten form as EXSET, EXINCRBY and EXCAS build it: the same tokens,
    but never KEEPTTL, whatever the write did to the TTL.
   */
  function ExSetFormAsWritten(key: string, value: string, version: u64, pxat: Option<int>, flags: Option<u32>): (cmd: seq<string>)
    ensures cmd == ExSetForm(key, value, version, pxat, flags, false)
  {
    ["EXSET", key, value, "ABS", VersionText(version)]
    + (if pxat.Some? then ["PXAT", FormatLongLong(pxat.value)] else [])
    + (if flags.Some? then ["FLAGS", FormatLongLong(flags.value)] else [])
  }

  /**
    The two forms differ only in the KEEPTTL token: without it they are the same
    line, and with it the corrected form is the written one with KEEPTTL put
    after the version (and after PXAT when there is one).
   */
  lemma KeepTtlIsTheOnlyDifference(key: string, value: string, version: u64, pxat: Option<int>, flags: Option<u32>)
    ensures ExSetForm(key, value, version, pxat, flags, false) == ExSetFormAsWritten(key, value, version, pxat, flags)
    ensures var w := ExSetFormAsWritten(key, value, version, pxat, flags);
      var i := if pxat.Some? then 7 else 5;
      && i <= |w|
      && ExSetForm(key, value, version, pxat, flags, true) == w[..i] + ["KEEPTTL"] + w[i..]
  {
    var head := ["EXSET", key, value, "ABS", VersionText(version)];
    var d := if pxat.Some? then ["PXAT", FormatLongLong(pxat.value)] else [];
    var f := if flags.Some? then ["FLAGS", FormatLongLong(flags.value)] else [];
    var w := head + d + f;
    assert w == ExSetFormAsWritten(key, value, version, pxat, flags);
    assert w[..|head + d|] == head + d && w[|head + d|..] == f;
  }

  /** `TairStringTypeAofRewrite`: one `EXSET ... ABS version FLAGS flags` per object, with no TTL. */
  function AofRewrite(key: string, obj: TairObj): (cmd: seq<string>)
    ensures cmd == ["EXSET", key, obj.value, "ABS", VersionText(obj.version), "FLAGS", FormatLongLong(obj.flags)]
  {
    ExSetForm(key, obj.value, obj.version, None, Some(obj.flags), false)
  }

  function DelForm(key: string): seq<string> {
    ["DEL", key]
  }

  function SetForm(key: string, value: string): seq<string> {
    ["SET", key, value]
  }

  function PexpireAtForm(key: string, deadline: int): seq<string> {
    ["PEXPIREAT", key, FormatLongLong(deadline)]
  }
}
