# TairString in Dafny

TairString is a Redis module that adds a versioned string type. Each key holds
an object made of a payload, a 64-bit version and 32-bit flags. The module offers:

- EXSET, EXGET, EXINCRBY, EXSETVER, EXCAS, EXCAD, EXAPPEND, EXPREPEND and EXGAE
  on these objects;
- CAS and CAD on plain Redis strings.

Every writing command rewrites itself into one deterministic EXSET ... ABS form
before it is replicated. Objects are persisted to RDB as version, flags, payload.

This project models that core (`src/tairstring.c`) and proves properties of the
model.

- `exflags.dfy`: the option parser `parseAndGetExFlags`.
  - The `TAIR_STRING_SET_*` bits are a `set<Flag>`.
  - Keywords are matched up to ASCII case (`mstringcasecmp`).
  - The declarative meaning `ParseSpec` lexes the arguments. It then requires
    that no two options clash and that every bit is inside the caller's mask.
  - The imperative scan `ParseExFlags` is a `while` loop over `argv`. It is
    proved to return exactly `ParseSpec`.
  - The parser's doc comment says that the first of several expiry (or
    version) options wins. The code returns an error instead, and the model
    follows the code.
- `exflags_lemmas.dfy` and `parser_examples.dfy`: what an accepted parse
  guarantees, and the parser on concrete argument lists.
- `decimal.dfy`: signed 64-bit decimal parsing and formatting, with round-trip
  lemmas. These stand in for `RedisModule_StringToLongLong` and
  `RedisModule_CreateStringFromLongLong`.
  - `ToSigned` is the `long long` reading of a `uint64_t` version.
- `keyspace.dfy`: the keyspace.
  - An entry is a TairString object, a plain string or another type.
  - `expires` maps each key to an absolute deadline in milliseconds.
  - It also holds the version and TTL arithmetic:
    - the version wraps modulo 2^64;
    - EX and EXAT are multiplied by 1000;
    - an absolute deadline becomes the time left until it, never negative.
- `commands.dfy`: one function per command from the keyspace, the arguments and
  the clock reading `now` to an `Outcome`. An outcome is the reply, the new
  keyspace and the replicated command lines.
  - Each command makes its checks in its own order from the source. EXSET
    checks arity, options, number conversion, type, NX/XX, the version, then
    writes, sets the TTL and replicates. The others differ:
    - EXINCRBY checks the type before it converts any number;
    - EXSETVER checks the type and a missing key before it parses the version;
    - EXCAD checks the type before it parses the version;
    - EXAPPEND and EXPREPEND test NX before the type.
- `store.dfy`: class `Server.Store` with mutable `entries` and `expires` maps.
  - It has one method per command, which updates the fields in place.
  - Each method is proved to produce the reply, the new state and the
    replicated lines of the matching `Commands` function.
- `replication.dfy`: the replicated EXSET form and the AOF form (`AofRewrite`).
- `replay.dfy`: the forms are replayed through `Commands.ExSet`.
  - A replica that applies the replicated line ends with the master's keyspace.
  - An AOF rewrite reloads to the same object.
- `codec.dfy`: RDB save and load, with both round trips.
- `command_lemmas.dfy`: command-level properties:
  - the NX/XX veto;
  - the version rule;
  - EXINCRBY overflow, bounds, DEF and NONEGATIVE;
  - the EXCAS/EXCAD/CAS/CAD cases;
  - append and prepend.

The model differs from the source in these ways:

- Clock: every command reads the clock once, as `now`. The source calls
  `RedisModule_Milliseconds` twice: once for an absolute deadline and once for
  the replicated PXAT.
- Error texts: errors are the constructors of `Keyspace.Error`. The message
  strings live in `tairstring.h`, which is not part of this model.

## Model

| member | source | states |
|---|---|---|
| ExFlagsLemmas.CaseInsensitiveEqualsLowered | src/tairstring.c:87-95 | a token matches a keyword exactly when the two, lower-cased letter by letter, are the same string |
| ExFlags.Classify | src/tairstring.c:120-222 | a recognised token matches its keyword up to case; a value keyword is recognised only with an open slot, and its value is the next token |
| ExFlags.ParseExFlags | src/tairstring.c:115-231 | the left-to-right scan, returning early on the first conflict, returns exactly the declarative parse `ParseSpec` (clash-free options, bits inside the allow mask) |
| ExFlags.ConflictTestIsClash | src/tairstring.c:124-222 | the scan's per-keyword test on the accumulated bits (and the MIN/MAX slots) fires exactly when the new option clashes with one already read |
| ExFlags.FlagConflictIsClash | src/tairstring.c:124-222 | for every option other than MIN and MAX, the bit test on the accumulated flags is equivalent to a clash with some earlier option |
| ExFlags.ClashRejects | src/tairstring.c:124-222 | an option that clashes with an earlier one makes the whole parse fail |
| ExFlags.ExtendScan | src/tairstring.c:118-222 | taking one more clash-free option keeps the scan's bits and recorded values equal to those of the options read so far |
| ExFlags.BitsHas | src/tairstring.c:34-47 | a flag is in the parsed set exactly when some option carries it |
| ExFlags.LastArgSome | src/tairstring.c:141-200 | a value slot is filled exactly when an option of its family was read |
| ExFlagsLemmas.ClashSymmetric | src/tairstring.c:124-222 | the conflict relation is symmetric: NX/XX, KEEPTTL/expiry and duplicate value keywords clash in either order |
| ExFlagsLemmas.ClashAnywhereRejects | src/tairstring.c:124-222 | any two clashing options anywhere in the arguments make the parse fail |
| ExFlagsLemmas.ParsedFlagsAllowed | src/tairstring.c:225-230 | an accepted parse has only bits from the caller's allow mask |
| ExFlagsLemmas.ParsedNxXxExclusive | src/tairstring.c:124-135 | an accepted parse never has both NX and XX |
| ExFlagsLemmas.ParsedOneExpiry | src/tairstring.c:136-219 | an accepted parse has at most one of EX and PX, none with KEEPTTL, and ABS_EXPIRE only together with EX or PX |
| ExFlagsLemmas.ParsedOneVersion | src/tairstring.c:164-177 | an accepted parse never has both VER and ABS |
| ExFlagsLemmas.ParsedValuesMatchFlags | src/tairstring.c:136-212 | each value slot is filled exactly when its flag bit is set (expire with EX/PX, version with VER/ABS, FLAGS, DEF, MIN or MAX with BOUNDARY) |
| ExFlagsLemmas.ParsedClosedSlotEmpty | src/tairstring.c:136-212 | a family whose slot the caller did not pass never receives a value |
| ExFlagsLemmas.LexRespectsSlots | src/tairstring.c:136-212 | every lexed value option belongs to a slot the caller passed |
| ExFlagsLemmas.ParsedValueFollowsKeyword | src/tairstring.c:136-212 | every recorded value is the token right after one of its family's keywords |
| ExFlagsLemmas.ArgOfIsLastArg | src/tairstring.c:136-212 | the value recorded for a family is the one taken from the lexed options |
| ExFlagsLemmas.ValueTokenIndex | src/tairstring.c:136-212 | returns the position of the keyword whose following token is the recorded value |
| ExFlagsLemmas.LexFirst | src/tairstring.c:118-222 | a successful lex starts with the classification of its first token |
| ExFlagsLemmas.BitsContainEach | src/tairstring.c:118-222 | each option's bits are in the parsed flag set |
| ParserExamples.ClassifyExWithoutSlot | src/tairstring.c:136-140 | with no expiry slot, `EX` is no keyword at all |
| ParserExamples.AppendRefusesExpiry | src/tairstring.c:1174-1186 | `EXAPPEND k v EX 5` is a syntax error, because EXAPPEND passes no expiry slot |
| ParserExamples.ExSetAcceptsLowerCaseExpiry | src/tairstring.c:136-140 | `ex 5` is read as EX with value `5` |
| ParserExamples.ExSetRefusesTwoExpiries | src/tairstring.c:136-154 | `EX 3 PX 4000` fails the whole EXSET with a syntax error |
| ParserExamples.ExSetRefusesNxXx | src/tairstring.c:124-135 | NX together with XX fails EXSET, in either order |
| ParserExamples.ExSetAcceptsRepeatedNx | src/tairstring.c:124-129 | a repeated NX is accepted and sets only the NX bit |
| Decimal.ToSigned | src/tairstring.c:366-381 | the `long long` value of a `uint64_t`: in range, congruent modulo 2^64, equal below 2^63 |
| Decimal.FormatLongLong | src/tairstring.c:366 | formats an integer as a non-empty decimal text |
| Decimal.ParseLongLong | src/tairstring.c:258-270 | a parsed value is in the signed 64-bit range and comes from a text of 1 to 20 characters |
| Decimal.ParseFormat | src/tairstring.c:559 | parsing the text of any signed 64-bit integer gives that integer back |
| Decimal.FormatParse | src/tairstring.c:258-270 | a text that parses is the canonical text of its value |
| Keyspace.Num | src/tairstring.c:258-270 | an absent option reads as 0; a present one is its parsed 64-bit value |
| Keyspace.Bump | src/tairstring.c:319 | `version++` on a `uint64_t`: plus one, wrapping from 2^64-1 to 0 |
| Keyspace.NewVersion | src/tairstring.c:315-320 | ABS sets the version to its value; otherwise it advances by one |
| Keyspace.ScaledExpire | src/tairstring.c:337-339 | EX and EXAT times are multiplied by 1000; PX and PXAT are kept |
| Keyspace.TtlMillis | src/tairstring.c:340-351 | an absolute deadline becomes the time left until it, clamped to 0; a relative time is used as is |
| Keyspace.TtlActionOf | src/tairstring.c:336-356 | with an expiry the TTL is set; without one it is kept exactly when KEEPTTL is given, otherwise cleared |
| Keyspace.ApplyTtl | src/tairstring.c:353-355 | the key's deadline is `now + ms`, removed, or left as it was, and every other key's TTL is untouched |
| Keyspace.Install | src/tairstring.c:322-356 | the key holds the new entry, its TTL follows the TTL action, and nothing else changes |
| Keyspace.HostStringSet | src/tairstring.c:1035 | `RedisModule_StringSet` leaves the key a plain string holding the value, with no deadline, and changes no other key |
| Keyspace.Delete | src/tairstring.c:929 | the key and its TTL are gone and nothing else changes |
| Commands.ReplicatedDeadline | src/tairstring.c:367-371 | the replicated PXAT is present exactly when a TTL was set, and it is the deadline the master installed |
| Commands.ExSet | src/tairstring.c:237-387 | EXSET: every error or null reply leaves the keyspace unchanged and replicates nothing; a write touches only its key |
| Commands.ExSetWrite | src/tairstring.c:314-377 | the write step of EXSET touches only its key and keeps the keyspace well formed |
| Commands.ExGet | src/tairstring.c:390-427 | EXGET never changes the keyspace and replicates nothing |
| Commands.IncrRejected | src/tairstring.c:532-548 | the overflow and bounds test as written, with `LLONG_MIN - value` and `LLONG_MAX - value` (meaning in `CommandLemmas.IncrRejectedMeaning`) |
| Commands.ExIncrBy | src/tairstring.c:431-602 | EXINCRBY: error and null replies change nothing; a write touches only its key |
| Commands.IncrCheck | src/tairstring.c:461-500 | when no number check fails, the increment and every present DEF, EX, VER, MIN and MAX value is a 64-bit integer, the expiry is positive, the version non-negative and MIN at most MAX |
| Commands.IncrOnKey | src/tairstring.c:502-602 | from the type and NX/XX checks on: error and null replies change nothing; otherwise only the key changes |
| Commands.IncrWrite | src/tairstring.c:526-602 | the overflow error changes nothing; otherwise only the key changes |
| Commands.IncrStore | src/tairstring.c:550-599 | storing the EXINCRBY result touches only its key |
| Commands.ExSetVer | src/tairstring.c:754-792 | EXSETVER: failures change nothing; otherwise only the key changes |
| Commands.ExCas | src/tairstring.c:795-893 | EXCAS: failures change nothing; otherwise only the key changes |
| Commands.ExCad | src/tairstring.c:896-934 | EXCAD: failures change nothing; otherwise only the key changes |
| Commands.Cad | src/tairstring.c:937-977 | CAD: failures change nothing; otherwise only the key changes |
| Commands.Cas | src/tairstring.c:980-1064 | CAS, with the KEEPTTL branch taking effect: failures change nothing; otherwise only the key changes |
| Commands.CasAsWritten | src/tairstring.c:980-1064 | CAS as it runs on the host, where `RedisModule_StringSet` drops the deadline first: failures change nothing; otherwise only the key changes |
| Commands.ExConcat | src/tairstring.c:1067-1242 | EXAPPEND/EXPREPEND: error and null replies change nothing; a write touches only its key |
| Commands.ConcatWrite | src/tairstring.c:1222-1239 | the write step of append/prepend touches only its key |
| Commands.ExAppend | src/tairstring.c:1164-1242 | EXAPPEND: error and null replies change nothing; a write touches only its key |
| Commands.ExPrepend | src/tairstring.c:1067-1160 | EXPREPEND: error and null replies change nothing; a write touches only its key |
| Commands.GaeParseHasExpire | src/tairstring.c:1252-1263 | an EXGAE parse that succeeds always has an expiry value, so the expire token is never read unset |
| Commands.ExpiryOnlyOption | src/tairstring.c:1252-1258 | every option allowed by EXGAE's mask is an expiry |
| Commands.ExGae | src/tairstring.c:1245-1307 | EXGAE: failures change nothing; otherwise only the key changes |
| CommandLemmas.ExSetSuccess | src/tairstring.c:284-386 | a successful EXSET obeys the NX/XX veto and the version rule, sets the TTL as given, kept or cleared, stores the value, takes the FLAGS value or else keeps the old flags (0 on a fresh key), and replies OK or the new version |
| CommandLemmas.ExSetVersionMismatch | src/tairstring.c:308-313 | on an existing object, EXSET fails with the version error exactly when `VER v` names a non-zero version other than the stored one, and then changes nothing |
| CommandLemmas.ExSetFreshVersionOne | src/tairstring.c:284-320 | EXSET without ABS on an absent key creates an object at version 1 |
| CommandLemmas.ExSetVeto | src/tairstring.c:284-306 | with valid arguments, EXSET replies null exactly when NX meets an existing object or XX meets an absent key, and then the keyspace and the replicated lines are unchanged |
| CommandLemmas.ExGetAfterExSet | src/tairstring.c:412-424 | after a successful EXSET, EXGET replies with the value written and its version, plus the flags with WITHFLAGS |
| CommandLemmas.ExGetStored | src/tairstring.c:412-424 | EXGET of a stored object replies value and version, plus flags with WITHFLAGS |
| CommandLemmas.ExGetCases | src/tairstring.c:402-426 | EXGET replies null on an absent key, WRONGTYPE on another type, and value, version and optional flags on an object |
| CommandLemmas.IncrRejectedMeaning | src/tairstring.c:532-548 | the code's test fires exactly when value+incr leaves the signed 64-bit range or crosses a supplied MIN or MAX |
| CommandLemmas.IncrSuccess | src/tairstring.c:502-599 | a successful EXINCRBY stores the decimal text of the result: the default on a fresh key with DEF, else the current value plus incr, in range and within MIN/MAX, clamped to 0 by NONEGATIVE; the flags stay those of the old object (0 on a fresh key) |
| CommandLemmas.ValuesMatchBitsFor | src/tairstring.c:466 | for EXINCRBY, a DEF value is present exactly when the DEF bit is set |
| CommandLemmas.IncrOverflowInstallsNothing | src/tairstring.c:532-548 | on the overflow error the keyspace is unchanged, and in particular no object is installed on a fresh key |
| CommandLemmas.IncrVeto | src/tairstring.c:502-512 | with valid arguments, EXINCRBY replies null exactly when NX meets an existing object or XX meets an absent key, and then nothing changes |
| CommandLemmas.IncrVersionMismatch | src/tairstring.c:521-524 | on an existing object holding a number, without NX, EXINCRBY gives the version error exactly when `VER v` names a non-zero version other than the stored one, and then nothing changes |
| CommandLemmas.IncrOverflowExisting | src/tairstring.c:531-541 | on an existing object holding a number that passes the NX and VER checks, EXINCRBY gives the overflow error exactly when value + incr leaves the signed 64-bit range or crosses MIN or MAX, and then nothing changes |
| CommandLemmas.IncrOverflowFresh | src/tairstring.c:502-541 | on an absent key without XX, EXINCRBY gives the overflow error exactly when there is no DEF and 0 + incr crosses MIN or MAX (with DEF nothing is checked), and then nothing changes and no object is installed |
| CommandLemmas.ExCasCases | src/tairstring.c:835-891 | EXCAS replies -1 on an absent key; on any other version (0 too) it replies the stored value and version and changes nothing; on the exact version it stores the value at version+1 |
| CommandLemmas.ExCadCases | src/tairstring.c:918-933 | EXCAD replies -1 on an absent key, 0 on a different version, and on the exact version (compared modulo 2^64) deletes the key, replies 1 and replicates DEL |
| CommandLemmas.ExCadZeroIsExact | src/tairstring.c:924 | version 0 is not a wildcard for EXCAD |
| CommandLemmas.ExCadNegativeWraps | src/tairstring.c:912-924 | EXCAD with -1 matches the version 2^64-1 |
| CommandLemmas.CadCases | src/tairstring.c:951-975 | CAD replies -1 on an absent key, 0 on a different string, and on an equal one deletes the key, replies 1 and replicates DEL |
| CommandLemmas.CadCasRefuseObjects | src/tairstring.c:946-948 | CAD and CAS refuse a TairString object with WRONGTYPE |
| CommandLemmas.CasCases | src/tairstring.c:1013-1062 | CAS replies -1 or 0 without change, or stores the new string, sets the TTL (kept under KEEPTTL) and replicates SET with a PEXPIREAT exactly when a TTL was given |
| CommandLemmas.CasKeepTtlIneffective | src/tairstring.c:1035-1055 | the host run of CAS has the same outcome as `Cas` on every failure, and on success the same reply, entries and lines. The deadline is also the same with an expiry. Without one the key has no deadline, even under KEEPTTL, where `Cas` keeps the old one |
| CommandLemmas.CasKeepTtlLost | src/tairstring.c:1035-1055 | `CAS k a b KEEPTTL` on `k` = "a" with deadline 100 succeeds both ways; `Cas` keeps the deadline and the host run drops it |
| CommandLemmas.ConcatSuccess | src/tairstring.c:1194-1240 | EXAPPEND stores old ++ arg, EXPREPEND arg ++ old, an absent key gets arg; the version rule holds, the flags (0 on a fresh key) and the TTL are untouched, and the reply is the new version |
| CommandLemmas.ConcatNxBeforeType | src/tairstring.c:1118-1121 | NX on an existing key replies null whatever the key's type |
| CommandLemmas.ConcatWrongType | src/tairstring.c:1123-1126 | without NX, a key of another type gets WRONGTYPE |
| CommandLemmas.ConcatVeto | src/tairstring.c:1067-1242 | with valid arguments, EXAPPEND and EXPREPEND reply null exactly when XX meets an absent key or NX meets any existing key (of any type), and then nothing changes |
| CommandLemmas.ConcatVersionMismatch | src/tairstring.c:1067-1242 | on an existing object without NX, EXAPPEND and EXPREPEND give the version error exactly when `VER v` names a non-zero version other than the stored one, and then nothing changes |
| CommandLemmas.GaeSuccess | src/tairstring.c:1277-1306 | a successful EXGAE parsed a positive expiry, leaves the entries as they were, sets the key's deadline to `now` plus the EX/EXAT/PX/PXAT time left (`TtlMillis`) and changes no other deadline, replies value, version and flags, and replicates its own arguments |
| CommandLemmas.GaeAbsent | src/tairstring.c:1272-1280 | with valid arguments, EXGAE replies null exactly when the key is absent, and then nothing changes |
| CommandLemmas.SetVerSuccess | src/tairstring.c:771-790 | a successful EXSETVER sets the object's version to a positive value, keeps value, flags and TTL, and replies 1 |
| CommandLemmas.SetVerAbsent | src/tairstring.c:763-773 | EXSETVER replies 0 exactly when it has its two arguments and the key is absent, and then nothing changes |
| Server.Store.ApplyExpiry | src/tairstring.c:336-371 | sets `expires` as the TTL action says, leaves `entries`, and returns the replicated deadline and whether KEEPTTL kept the TTL |
| Server.Store.ExSet | src/tairstring.c:237-387 | changes the store exactly as `Commands.ExSet` and returns its reply and replicated lines |
| Server.Store.ExSetWrite | src/tairstring.c:314-386 | the write step of EXSET, equal to `Commands.ExSetWrite` |
| Server.Store.ExGet | src/tairstring.c:390-427 | returns the reply of `Commands.ExGet` on the current state |
| Server.Store.ExIncrBy | src/tairstring.c:431-602 | reply, new state and replicated lines equal those of `Commands.ExIncrBy` |
| Server.Store.IncrNumbers | src/tairstring.c:461-500 | reports the error `Commands.IncrCheck` names, and otherwise returns the converted increment, default, version, expiry, MIN and MAX |
| Server.Store.IncrOnKey | src/tairstring.c:502-602 | equal to `Commands.IncrOnKey` |
| Server.Store.IncrWrite | src/tairstring.c:526-602 | equal to `Commands.IncrWrite` |
| Server.Store.IncrStore | src/tairstring.c:550-599 | equal to `Commands.IncrStore` |
| Server.Store.ExSetVer | src/tairstring.c:754-792 | equal to `Commands.ExSetVer` |
| Server.Store.ExCas | src/tairstring.c:795-893 | equal to `Commands.ExCas` |
| Server.Store.ExCad | src/tairstring.c:896-934 | equal to `Commands.ExCad` |
| Server.Store.Cad | src/tairstring.c:937-977 | equal to `Commands.Cad` |
| Server.Store.Cas | src/tairstring.c:980-1064 | equal to `Commands.Cas` |
| Server.Store.ExConcat | src/tairstring.c:1067-1242 | equal to `Commands.ExConcat` |
| Server.Store.ExAppend | src/tairstring.c:1164-1242 | equal to `Commands.ExAppend` |
| Server.Store.ExPrepend | src/tairstring.c:1067-1160 | equal to `Commands.ExPrepend` |
| Server.Store.ExGae | src/tairstring.c:1245-1307 | equal to `Commands.ExGae` |
| Replication.VersionText | src/tairstring.c:366 | the version's text parses back to the version below 2^63, and to a negative number above |
| Replication.ExSetForm | src/tairstring.c:358-377 | the replicated EXSET line: key, value, `ABS` and the version, then PXAT and the deadline, KEEPTTL, and FLAGS and the flags, each when present |
| Replication.ExSetFormAsWritten | src/tairstring.c:358-377 | the line the code emits, which is the form without KEEPTTL |
| Replication.KeepTtlIsTheOnlyDifference | src/tairstring.c:358-377 | the line the code emits and the corrected line differ only in the KEEPTTL token, which the corrected line carries after the version and PXAT |
| Replication.AofRewrite | src/tairstring.c:1332-1337 | the AOF line is exactly `EXSET key value ABS version FLAGS flags`, the version printed as a `long long` and no TTL |
| Replay.ParseForm | src/tairstring.c:358-377 | the replicated line parses to ABS with the version, PXAT with the deadline, KEEPTTL and FLAGS, exactly as emitted |
| Replay.ReplayForm | src/tairstring.c:237-387 | replaying a replicated line installs the object at the given version and value, with the given or the previous flags, and the given, kept or cleared TTL, and re-emits the same line |
| Replay.InstallReplays | src/tairstring.c:322-377 | replaying the line built for an install gives the same keyspace as the install |
| Replay.ExSetReplicaAgrees | src/tairstring.c:237-387 | a replica that applies EXSET's replicated line ends with the master's keyspace |
| Replay.IncrReplicaAgrees | src/tairstring.c:550-592 | a replica that applies EXINCRBY's replicated line ends with the master's keyspace |
| Replay.CasReplicaAgrees | src/tairstring.c:855-885 | a replica that applies EXCAS's replicated line ends with the master's keyspace |
| Replay.IncrReachesStore | src/tairstring.c:502-599 | every successful EXINCRBY is the store step for some result value |
| Replay.AofReload | src/tairstring.c:1332-1337 | replaying the AOF line of an object recreates exactly that object, without a TTL |
| Replay.AofRewriteRefusesHighVersion | src/tairstring.c:1336 | the AOF line of an object whose version is 2^63 or more does not replay; EXSET answers a syntax error |
| Replay.KeepTtlOverwrite | src/tairstring.c:354-377 | EXSET with KEEPTTL keeps the deadline and the corrected line replays to the same keyspace, while the line as written drops the deadline |
| Replay.KeepTtlLostOnReplica | src/tairstring.c:354-377 | a concrete keyspace where the master keeps a TTL and the replica, applying the line as written, loses it |
| Codec.RdbSave | src/tairstring.c:1323-1330 | saves exactly three fields, in this order: the version, the flags and the payload |
| Codec.RdbLoad | src/tairstring.c:1311-1321 | fails on an encoding version other than 0; otherwise reads version, flags (low 32 bits) and payload in that order |
| Codec.LoadSave | src/tairstring.c:1311-1330 | loading what was saved gives the object back and leaves the rest of the stream |
| Codec.SaveLoad | src/tairstring.c:1311-1330 | saving what was loaded writes back the fields read, when the flags fit in 32 bits |

## Left out

- `EXINCRBYFLOAT` (`src/tairstring.c:605-751`) is not modelled. It uses long-double arithmetic and the NaN/Inf checks of `util.h`.
- `RedisModule_OnLoad` and `Module_CreateCommands` are not modelled. They register commands and the type with the host.
- `TairStringTypeMemUsage`, `TairStringTypeDigest`, `TairStringTypeFree` and reference counting are not modelled. They concern memory layout and host hashing.
- The release of a half-built object on an error path is stated only as "the keyspace is unchanged".
- The reply wire encoding (postponed lengths, the Jedis workaround) is not modelled. Replies are abstract values that keep their element order.
- The `RedisModule_Call("GET")` lookup in CAS and CAD is a direct lookup of a plain-string entry.
- `RedisModule_StringSet` is modelled only as far as CAS needs it (`Keyspace.HostStringSet`): the key becomes a plain string with no deadline. The host failure paths of `RedisModule_StringSet` and `RedisModule_StringAppendBuffer` are not modelled. They abort without a reply, and the model treats both calls as succeeding.
- Lazy expiry by the host is not modelled. A key whose deadline has passed is still present until a command removes it.
- The effect of the `SET` and `PEXPIREAT` lines that CAS replicates is not modelled. Their replay is plain Redis behaviour.
- Two readings of `RedisModule_Milliseconds` within one command are modelled as a single reading `now`.
- `expire * 1000` and `milliseconds + now` are unbounded integers. The C code overflows a `long long` there, which is undefined behaviour, and the model does not reproduce it.
- `module-example/` is not part of this model.
- `tairstring.h` is not part of this model, so error messages are constructors rather than texts.
- Replay.ExSetReplicaAgrees, Replay.IncrReplicaAgrees, Replay.CasReplicaAgrees: these are proved only when the new version is below 2^63 and the replica applies the line before the deadline passes. A version of 2^63 or more is sent as a negative number, which EXSET refuses. A passed absolute deadline would be clamped to "expire now".
- Replay.ReplayForm: requires a deadline that has not passed and a version below 2^63, for the same reasons.
- Replay.AofReload: requires a version below 2^63. The other case is `Replay.AofRewriteRefusesHighVersion`.
- Commands.ExSet: the replicated EXSET line carries KEEPTTL when the write kept the TTL. The code's line never does (`src/tairstring.c:358-377`). This is the corrected form from "## Findings"; `Replication.KeepTtlIsTheOnlyDifference` states that KEEPTTL is the only difference from the code's line.
- Commands.ExSetWrite: builds the corrected replicated line with KEEPTTL, like `Commands.ExSet`. The code's line omits that token (`src/tairstring.c:358-377`).
- Commands.ExIncrBy: replicates the corrected line, which keeps KEEPTTL. The code's line at `src/tairstring.c:587-592` never carries KEEPTTL.
- Commands.IncrOnKey: replicates the corrected line with KEEPTTL, like `Commands.ExIncrBy`. The code does not emit KEEPTTL (`src/tairstring.c:587-592`).
- Commands.IncrWrite: replicates the corrected line with KEEPTTL. The code does not emit KEEPTTL (`src/tairstring.c:587-592`).
- Commands.IncrStore: builds the corrected replicated line with KEEPTTL. The code's line omits it (`src/tairstring.c:587-592`).
- Commands.ExCas: replicates the corrected line, which keeps KEEPTTL. The code's line omits it (`src/tairstring.c:880-885`).
- Server.Store.ExSet: equal to `Commands.ExSet`, so it replicates the corrected line with KEEPTTL, unlike `src/tairstring.c:358-377`.
- Server.Store.ExSetWrite: replicates the corrected line with KEEPTTL, unlike `src/tairstring.c:358-377`.
- Server.Store.ExIncrBy: equal to `Commands.ExIncrBy`, so it replicates the corrected line with KEEPTTL, unlike `src/tairstring.c:587-592`.
- Server.Store.IncrOnKey: replicates the corrected line with KEEPTTL, unlike `src/tairstring.c:587-592`.
- Server.Store.IncrWrite: replicates the corrected line with KEEPTTL, unlike `src/tairstring.c:587-592`.
- Server.Store.IncrStore: replicates the corrected line with KEEPTTL, unlike `src/tairstring.c:587-592`.
- Server.Store.ExCas: replicates the corrected line with KEEPTTL, unlike `src/tairstring.c:880-885`.
- Within those commands, the code as written (the line without KEEPTTL) is modelled only as the form `Replication.ExSetFormAsWritten`. `Replay.KeepTtlOverwrite` and `Replay.KeepTtlLostOnReplica` show what it does on a replica.
- Commands.Cas: models CAS with KEEPTTL keeping the deadline, the corrected reading from "## Findings". On the host, `RedisModule_StringSet` (`src/tairstring.c:1035`) deletes the key first, so the code as written never keeps it. That is `Commands.CasAsWritten`.
- Server.Store.Cas: equal to `Commands.Cas`, so KEEPTTL keeps the deadline here. On the host the deadline is dropped by `RedisModule_StringSet` (`src/tairstring.c:1035`).
- CommandLemmas.CasCases: its TTL rule (kept under KEEPTTL) is about the corrected `Commands.Cas`. `CommandLemmas.CasKeepTtlIneffective` states what the host run does instead.
- Codec.SaveLoad: requires the loaded flags field to fit in 32 bits. Wider values are truncated by `RdbLoad`, so they cannot be written back.

## Findings

| source | as written | input that shows it | evidently intended | confidence | as-written member | corrected member |
|---|---|---|---|---|---|---|
| src/tairstring.c:358-377 | the replicated `EXSET key value ABS v [PXAT d] [FLAGS f]` line never carries KEEPTTL, so a replica that applies it clears the key's TTL | key `k` holding version 1 with a deadline of 100, then `EXSET k b KEEPTTL` at time 0: the master keeps the deadline, the replica drops it | the replicated line carries KEEPTTL when the TTL was kept, so the replica keeps it too | not executed | Replication.ExSetFormAsWritten, Replay.KeepTtlLostOnReplica | Replication.ExSetForm, Replay.ExSetReplicaAgrees |
| src/tairstring.c:1035-1055 | CAS calls `RedisModule_StringSet` before its TTL step, and the host's StringSet deletes the key and sets it again, which drops the deadline. So the KEEPTTL branch (`else if (!KEEPTTL)`) has nothing to keep, and CAS without an expiry always leaves no TTL | plain string `k` = "a" with a deadline of 100, then `CAS k a b KEEPTTL` at time 0: the reply is 1 and `k` has no deadline | with KEEPTTL the key keeps its deadline, as the separate KEEPTTL branch shows was meant | not executed; rests on the host's StringSet semantics, which are outside this model | Commands.CasAsWritten, CommandLemmas.CasKeepTtlLost | Commands.Cas, CommandLemmas.CasCases |

The same line is emitted by EXINCRBY (`src/tairstring.c:587-592`) and EXCAS
(`src/tairstring.c:880-885`), so KEEPTTL is lost there as well. The model
replicates the corrected form from all three commands. `Replay.IncrReplicaAgrees`
and `Replay.CasReplicaAgrees` prove that the corrected line keeps the replica
equal to the master. `Replay.KeepTtlOverwrite` shows both halves of the finding
for any object with a TTL.

For CAS, `CommandLemmas.CasKeepTtlIneffective` states the difference for every
input. The host run and `Commands.Cas` agree on every failure. On success they
agree on the reply, the entries, the replicated lines, and the deadline when an
expiry is given. Without an expiry the host run leaves no deadline, even under
KEEPTTL. CAS replicates a plain `SET`, which on a replica also drops the
deadline. So keeping the TTL under KEEPTTL on a replica as well would need the
replicated `SET` to carry KEEPTTL too. The replay of `SET` is not modelled.
