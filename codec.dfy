/**
  The RDB persistence of an object: `TairStringTypeRdbSave` writes the
  version, the flags and the payload; `TairStringTypeRdbLoad` reads them back
  in that order, and only understands encoding version 0.
 */
module Codec {
  import opened Optional
  import opened Decimal
  import opened Keyspace

  /** The encoding version this module writes and reads (`TAIRSTRING_ENCVER_VER_1`). */
  const EncVer: int := 0

  /**
    One field of an RDB stream: `RedisModule_SaveUnsigned` writes a 64-bit
    unsigned number, `RedisModule_SaveString` a string.
   */
  datatype Field = Unsigned(n: u64) | Str(s: string)

  /** `TairStringTypeRdbSave`: version, then flags, then the payload. */
  function RdbSave(obj: TairObj): (fields: seq<Field>)
    ensures |fields| == 3
    ensures fields[0] == Unsigned(obj.version) && fields[1] == Unsigned(obj.flags) && fields[2] == Str(obj.value)
  {
    [Unsigned(obj.version), Unsigned(obj.flags), Str(obj.value)]
  }

  /**
    `TairStringTypeRdbLoad`: NULL for any other encoding version; otherwise an
    object read from the next three fields, with the 64-bit flags field stored
    into the 32-bit `flags` (keeping its low 32 bits). A stream that does not
    hold the expected fields is rejected (the host reports that as a load error).
    Returns the object and the fields after it.
   */
  function RdbLoad(encver: int, fields: seq<Field>): (r: Option<(TairObj, seq<Field>)>)
    ensures encver != EncVer ==> r.None?
    ensures r.Some? ==> |fields| >= 3 && r.value.1 == fields[3..]
    ensures r.Some? ==> fields[0].Unsigned? && fields[1].Unsigned? && fields[2].Str?
    ensures r.Some? ==> r.value.0.version == fields[0].n && r.value.0.value == fields[2].s
    ensures r.Some? ==> r.value.0.flags == fields[1].n % 0x1_0000_0000
  {
    if encver != EncVer then None
    else if |fields| < 3 || !fields[0].Unsigned? || !fields[1].Unsigned? || !fields[2].Str? then None
    else Some((TairObj(fields[0].n, fields[1].n % (MaxUint32 + 1), fields[2].s), fields[3..]))
  }

  /** Loading what was saved gives back the object and leaves the rest of the stream. */
  lemma LoadSave(obj: TairObj, rest: seq<Field>)
    ensures RdbLoad(EncVer, RdbSave(obj) + rest) == Some((obj, rest))
  {
    var fields := RdbSave(obj) + rest;
    assert fields[3..] == rest;
  }

  /** Saving what was loaded writes back the fields that were read, up to the flags' high bits. */
  lemma SaveLoad(fields: seq<Field>)
    requires RdbLoad(EncVer, fields).Some?
    requires fields[1].n <= MaxUint32
    ensures RdbSave(RdbLoad(EncVer, fields).value.0) + RdbLoad(EncVer, fields).value.1 == fields
  {
    var r := RdbLoad(EncVer, fields).value;
    assert RdbSave(r.0) == fields[..3];
    assert fields[..3] + fields[3..] == fields;
  }
}
