/**
  Concrete argument lists and what the option parser and the commands make of
  them: keywords are matched without regard to case, a keyword whose slot the
  command does not pass is an unknown token, and conflicting options fail the
  whole command.
 */
module ParserExamples {
  import opened Optional
  import opened ExFlags
  import opened ExFlagsLemmas
  import opened Keyspace
  import opened Commands

  lemma ClassifyEx(token: string, next: string)
    requires token == "EX"
    ensures Classify(token, Some(next), ExSetSlots) == Some(Ex(next))
  {
    assert token[0] == 'E';
  }

  lemma ClassifyPx(token: string, next: string)
    requires token == "PX"
    ensures Classify(token, Some(next), ExSetSlots) == Some(Px(next))
  {
    assert token[0] == 'P';
  }

  lemma ClassifyNx(token: string, next: Option<string>, slots: Slots)
    requires token == "NX"
    ensures Classify(token, next, slots) == Some(Nx)
  {
  }

  lemma ClassifyXx(token: string, next: Option<string>, slots: Slots)
    requires token == "XX"
    ensures Classify(token, next, slots) == Some(Xx)
  {
    assert token[0] == 'X';
  }

  /** Without an expiry slot, `EX` is not a keyword at all. */
  lemma ClassifyExWithoutSlot(token: string, next: Option<string>)
    requires token == "EX"
    ensures Classify(token, next, AppendSlots) == None
  {
    assert token[0] == 'E';
  }

  /** `EXAPPEND key value EX 5` is a syntax error: EXAPPEND passes no expiry slot. */
  lemma AppendRefusesExpiry(db: Db, key: string, value: string)
    requires Valid(db)
    ensures ExAppend(db, ["EXAPPEND", key, value, "EX", "5"]).reply == Err(SyntaxError)
  {
    var argv := ["EXAPPEND", key, value, "EX", "5"];
    ClassifyExWithoutSlot(argv[3], NextToken(argv, 3));
    assert LexFrom(argv, 3, AppendSlots) == None;
  }

  /** The same tokens, in lower case, are a valid EXSET expiry. */
  lemma ExSetAcceptsLowerCaseExpiry(key: string, value: string)
    ensures ParseSpec(["EXSET", key, value, "ex", "5"], 3, ExSetSlots, ExSetAllow)
         == Some(Parsed({SetEx}, Some("5"), None, None, None, None, None))
  {
    var argv := ["EXSET", key, value, "ex", "5"];
    assert argv[3][0] == 'e';
    assert Classify(argv[3], NextToken(argv, 3), ExSetSlots) == Some(Ex("5"));
    assert LexFrom(argv, 5, ExSetSlots) == Some([]);
    LexCons(argv, 3, ExSetSlots, Ex("5"), []);
    assert [Ex("5")] + [] == [Ex("5")] && [Ex("5")][..0] == [];
    var items := [Ex("5")];
    assert Bits(items) == {SetEx};
    assert ClashFree(items);
    assert Summary(items) == Parsed({SetEx}, Some("5"), None, None, None, None, None);
  }

  /** Two expiry directives: `EX 3 PX 4000` fails the whole EXSET. */
  lemma ExSetRefusesTwoExpiries(db: Db, key: string, value: string, now: int)
    requires Valid(db)
    ensures ExSet(db, ["EXSET", key, value, "EX", "3", "PX", "4000"], now).reply == Err(SyntaxError)
  {
    var argv := ["EXSET", key, value, "EX", "3", "PX", "4000"];
    ClassifyPx(argv[5], "4000");
    assert LexFrom(argv, 7, ExSetSlots) == Some([]);
    LexCons(argv, 5, ExSetSlots, Px("4000"), []);
    assert [Px("4000")] + [] == [Px("4000")];
    ClassifyEx(argv[3], "3");
    LexCons(argv, 3, ExSetSlots, Ex("3"), [Px("4000")]);
    assert [Ex("3")] + [Px("4000")] == [Ex("3"), Px("4000")];
    assert LexFrom(argv, 3, ExSetSlots) == Some([Ex("3"), Px("4000")]);
    assert Clash(Ex("3"), Px("4000"));
    assert ParseSpec(argv, 3, ExSetSlots, ExSetAllow) == None;
  }

  /** NX together with XX fails, in either order. */
  lemma ExSetRefusesNxXx(db: Db, key: string, value: string, now: int)
    requires Valid(db)
    ensures ExSet(db, ["EXSET", key, value, "NX", "XX"], now).reply == Err(SyntaxError)
    ensures ExSet(db, ["EXSET", key, value, "XX", "NX"], now).reply == Err(SyntaxError)
  {
    var a := ["EXSET", key, value, "NX", "XX"];
    ClassifyNx(a[3], NextToken(a, 3), ExSetSlots);
    ClassifyXx(a[4], NextToken(a, 4), ExSetSlots);
    assert LexFrom(a, 5, ExSetSlots) == Some([]);
    LexCons(a, 4, ExSetSlots, Xx, []);
    assert [Xx] + [] == [Xx];
    LexCons(a, 3, ExSetSlots, Nx, [Xx]);
    assert [Nx] + [Xx] == [Nx, Xx];
    assert Clash([Nx, Xx][0], [Nx, Xx][1]);
    assert ParseSpec(a, 3, ExSetSlots, ExSetAllow) == None;
    var b := ["EXSET", key, value, "XX", "NX"];
    ClassifyXx(b[3], NextToken(b, 3), ExSetSlots);
    ClassifyNx(b[4], NextToken(b, 4), ExSetSlots);
    assert LexFrom(b, 5, ExSetSlots) == Some([]);
    LexCons(b, 4, ExSetSlots, Nx, []);
    assert [Nx] + [] == [Nx];
    LexCons(b, 3, ExSetSlots, Xx, [Nx]);
    assert [Xx] + [Nx] == [Xx, Nx];
    assert Clash([Xx, Nx][0], [Xx, Nx][1]);
    assert ParseSpec(b, 3, ExSetSlots, ExSetAllow) == None;
  }

  /** A repeated NX is not a conflict. */
  lemma ExSetAcceptsRepeatedNx(key: string, value: string)
    ensures ParseSpec(["EXSET", key, value, "NX", "nx"], 3, ExSetSlots, ExSetAllow)
         == Some(Parsed({SetNx}, None, None, None, None, None, None))
  {
    var a := ["EXSET", key, value, "NX", "nx"];
    ClassifyNx(a[3], NextToken(a, 3), ExSetSlots);
    assert Classify(a[4], NextToken(a, 4), ExSetSlots) == Some(Nx);
    assert LexFrom(a, 5, ExSetSlots) == Some([]);
    LexCons(a, 4, ExSetSlots, Nx, []);
    assert [Nx] + [] == [Nx];
    LexCons(a, 3, ExSetSlots, Nx, [Nx]);
    assert [Nx] + [Nx] == [Nx, Nx];
    var items := [Nx, Nx];
    assert items[..1] == [Nx] && [Nx][..0] == [];
    assert Bits(items) == {SetNx};
    assert ClashFree(items);
    assert Summary(items) == Parsed({SetNx}, None, None, None, None, None, None);
  }
}
