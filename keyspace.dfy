/**
  The keyspace the commands act on, and the arithmetic they share: the
  versioned object, its TTL, version advance and the numeric conversion of
  option values.
 */
module Keyspace {
  import opened Optional
  import opened Decimal
  import opened ExFlags

  /** `TairStringObj`: a 64-bit version, 32-bit flags and the payload. */
  datatype TairObj = TairObj(version: u64, flags: u32, value: string)

  /** What a key holds: a versioned object, a plain Redis string, or any other type. */
  datatype Entry = Tair(obj: TairObj) | Plain(s: string) | OtherType

  /**
    The keyspace as a command sees it: the entries, and for some of them an
    absolute expiry deadline in milliseconds.
   */
  datatype Db = Db(entries: map<string, Entry>, expires: map<string, int>)

  /** A deadline only exists for a key that exists. */
  predicate Valid(db: Db) {
    db.expires.Keys <= db.entries.Keys
  }

  /** The error replies; their message texts are defined outside this file. */
  datatype Error =
    | WrongArity
    | SyntaxError
    | WrongType
    | VersionError
    | NotInteger
    | VersionNotInteger
    | MinMaxError
    | OverflowError

  /** Replies, abstracted from the wire encoding. `StaleVersion` is the status EXCAS sends on a version mismatch. */
  datatype Reply =
    | Null
    | Int(n: int)
    | Bulk(s: string)
    | Status(s: string)
    | StaleVersion
    | Arr(items: seq<Reply>)
    | Err(e: Error)

  /** What a command does: what it replies, the keyspace after it, and the commands it replicates. */
  datatype Outcome = Outcome(reply: Reply, db: Db, propagated: seq<seq<string>>)

  /** A reply that leaves the keyspace as it was and replicates nothing. */
  function Unchanged(db: Db, reply: Reply): (r: Outcome)
    ensures r.db == db && r.propagated == [] && r.reply == reply
  {
    Outcome(reply, db, [])
  }

  function Fail(db: Db, e: Error): (r: Outcome)
    ensures r.db == db && r.propagated == [] && r.reply.Err?
  {
    Unchanged(db, Err(e))
  }

  /** Outcomes in which the command changed nothing: errors, null replies and the -1/0 integer replies. */
  predicate Quiet(db: Db, r: Outcome) {
    r.db == db && r.propagated == []
  }

  // ---------------------------------------------------------------- numbers

  /** An option value that is present but is not a 64-bit decimal integer. */
  predicate BadNum(o: Option<string>) {
    o.Some? && ParseLongLong(o.value).None?
  }

  /** An option value as a number; an absent option reads as 0, the initial value of its variable. */
  function Num(o: Option<string>): (n: int)
    ensures InInt64(n)
    ensures o.None? ==> n == 0
    ensures o.Some? && !BadNum(o) ==> ParseLongLong(o.value) == Some(n)
  {
    match o
    case None => 0
    case Some(s) => match ParseLongLong(s) case None => 0 case Some(n) => n
  }

  /** The parsed value of a present option, for MIN and MAX, whose presence matters. */
  function NumOpt(o: Option<string>): (r: Option<int>)
    ensures r.Some? <==> o.Some?
    ensures r.Some? ==> r.value == Num(o)
  {
    if o.Some? then Some(Num(o)) else None
  }

  // ---------------------------------------------------------------- versions

  /** `version++` on a `uint64_t`, wrapping to 0 after the largest value. */
  function Bump(v: u64): (r: u64)
    ensures v < MaxUint64 ==> r == v + 1
    ensures v == MaxUint64 ==> r == 0
  {
    (v + 1) % (MaxUint64 + 1)
  }

  /** The `VER` test: a non-zero `VER v` must equal the stored version. */
  predicate VersionAccepted(flags: set<Flag>, version: int, current: u64) {
    !(SetWithVer in flags && version != 0 && version != current)
  }

  /** The version after a successful write: `ABS v` sets it, otherwise it advances by one. */
  function NewVersion(current: u64, flags: set<Flag>, version: int): (r: u64)
    requires 0 <= version <= MaxInt64
    ensures SetWithAbsVer in flags ==> r == version
    ensures SetWithAbsVer !in flags ==> r == Bump(current)
  {
    if SetWithAbsVer in flags then version else Bump(current)
  }

  // ---------------------------------------------------------------- TTL

  /** EX and EXAT count seconds, PX and PXAT milliseconds. */
  function ScaledExpire(expire: int, flags: set<Flag>): (ms: int)
    ensures expire > 0 ==> ms >= expire
    ensures SetEx in flags ==> ms == expire * 1000
    ensures SetEx !in flags ==> ms == expire
  {
    if SetEx in flags then expire * 1000 else expire
  }

  /**
    The relative time handed to `RedisModule_SetExpire`: an absolute deadline
    becomes the time left until it, never negative; a relative one is used as is.
   */
  function TtlMillis(expire: int, flags: set<Flag>, now: int): (ms: int)
    ensures expire > 0 ==> ms >= 0
    ensures SetAbsExpire in flags ==>
      now + ms == (if ScaledExpire(expire, flags) < now then now else ScaledExpire(expire, flags))
    ensures SetAbsExpire !in flags ==> ms == ScaledExpire(expire, flags)
  {
    var e := ScaledExpire(expire, flags);
    if SetAbsExpire in flags then (if e - now < 0 then 0 else e - now) else e
  }

  /** What a write does to the key's TTL. */
  datatype TtlAction = ExpireIn(ms: int) | Persist | Retain

  /** An expiry argument sets a TTL; without one the TTL is cleared, unless KEEPTTL is given. */
  function TtlActionOf(expire: Option<string>, flags: set<Flag>, now: int): (a: TtlAction)
    ensures expire.Some? <==> a.ExpireIn?
    ensures a.Retain? <==> expire.None? && SetKeepTtl in flags
  {
    if expire.Some? then ExpireIn(TtlMillis(Num(expire), flags, now))
    else if SetKeepTtl in flags then Retain
    else Persist
  }

  /** The deadlines after a TTL action on `key`, with the host turning relative times into deadlines. */
  function ApplyTtl(expires: map<string, int>, key: string, a: TtlAction, now: int): (r: map<string, int>)
    ensures a.ExpireIn? ==> key in r && r[key] == now + a.ms
    ensures a.Persist? ==> key !in r
    ensures a.Retain? ==> r == expires
    ensures forall k :: k != key ==> (k in r <==> k in expires) && (k in r ==> r[k] == expires[k])
  {
    match a
    case ExpireIn(ms) => expires[key := now + ms]
    case Persist => expires - {key}
    case Retain => expires
  }

  /** Every key other than `key` has the same entry and the same deadline in both keyspaces. */
  ghost predicate SameElsewhere(db: Db, db2: Db, key: string) {
    && (forall k :: k != key ==> (k in db2.entries <==> k in db.entries))
    && (forall k :: k != key && k in db.entries ==> db2.entries[k] == db.entries[k])
    && (forall k :: k != key ==> (k in db2.expires <==> k in db.expires))
    && (forall k :: k != key && k in db.expires ==> db2.expires[k] == db.expires[k])
  }

  /**
    `RedisModule_StringSet` as the host performs it: the key is deleted and set
    again as a plain string, so whatever deadline it had is gone.
   */
  function HostStringSet(db: Db, key: string, value: string): (r: Db)
    requires Valid(db)
    ensures Valid(r)
    ensures key in r.entries && r.entries[key] == Plain(value) && key !in r.expires
    ensures SameElsewhere(db, r, key)
  {
    Db(db.entries[key := Plain(value)], db.expires - {key})
  }

  /** Store `e` under `key` and apply the TTL action. */
  function Install(db: Db, key: string, e: Entry, a: TtlAction, now: int): (r: Db)
    requires Valid(db)
    ensures Valid(r)
    ensures key in r.entries && r.entries[key] == e
    ensures r.expires == ApplyTtl(db.expires, key, a, now)
    ensures SameElsewhere(db, r, key)
  {
    Db(db.entries[key := e], ApplyTtl(db.expires, key, a, now))
  }

  /** Delete `key` together with its TTL (`RedisModule_DeleteKey`). */
  function Delete(db: Db, key: string): (r: Db)
    requires Valid(db)
    ensures Valid(r)
    ensures key !in r.entries && key !in r.expires
    ensures SameElsewhere(db, r, key)
  {
    Db(db.entries - {key}, db.expires - {key})
  }
}
