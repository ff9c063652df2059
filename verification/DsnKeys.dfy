/** The key table of the driver, and the connection strings read with it. */
module DsnKeys {
  import opened Common
  import opened ConnString
  import opened DsnOptions
  import opened DsnParser

  const COUNT := 60

  // The names in the order of the table, six at a time; the last ones are aliases.

  function Names0(i: nat): string
    requires 0 <= i < 6
  {
    match i
    case 0 => "DSN"
    case 1 => "DESCRIPTION"
    case 2 => "DRIVER"
    case 3 => "OPTIONS"
    case 4 => "OPTION"
    case _ => "NamedPipe"
  }

  function Names6(i: nat): string
    requires 6 <= i < 12
  {
    match i
    case 6 => "TCPIP"
    case 7 => "SERVER"
    case 8 => "UID"
    case 9 => "PWD"
    case 10 => "DATABASE"
    case _ => "PORT"
  }

  function Names12(i: nat): string
    requires 12 <= i < 18
  {
    match i
    case 12 => "INITSTMT"
    case 13 => "CONN_TIMEOUT"
    case 14 => "AUTO_RECONNECT"
    case 15 => "NO_PROMPT"
    case 16 => "CHARSET"
    case _ => "TRACE"
  }

  function Names18(i: nat): string
    requires 18 <= i < 24
  {
    match i
    case 18 => "PLUGIN_DIR"
    case 19 => "SSLKEY"
    case 20 => "SSLCERT"
    case 21 => "SSLCA"
    case 22 => "SSLCAPATH"
    case _ => "SSLCIPHER"
  }

  function Names24(i: nat): string
    requires 24 <= i < 30
  {
    match i
    case 24 => "SSLVERIFY"
    case 25 => "TLSPEERFP"
    case 26 => "TLSPEERFPLIST"
    case 27 => "SSLCRL"
    case 28 => "SSLCRLPATH"
    case _ => "SOCKET"
  }

  function Names30(i: nat): string
    requires 30 <= i < 36
  {
    match i
    case 30 => "SAVEFILE"
    case 31 => "USE_MYCNF"
    case 32 => "TLSVERSION"
    case 33 => "FORCETLS"
    case 34 => "SERVERKEY"
    case _ => "TLSKEYPWD"
  }

  function Names36(i: nat): string
    requires 36 <= i < 42
  {
    match i
    case 36 => "INTERACTIVE"
    case 37 => "FORWARDONLY"
    case 38 => "SCHEMANOERROR"
    case 39 => "READ_TIMEOUT"
    case 40 => "WRITE_TIMEOUT"
    case _ => "NOLOCALINFILE"
  }

  function Names42(i: nat): string
    requires 42 <= i < 48
  {
    match i
    case 42 => "NULLISCURRENT"
    case 43 => "STREAMRS"
    case 44 => "ATTR"
    case 45 => "EDSERVER"
    case 46 => "PREPONCLIENT"
    case _ => "PSCACHESIZE"
  }

  function Names48(i: nat): string
    requires 48 <= i < 54
  {
    match i
    case 48 => "MAXCACHEKEY"
    case 49 => "PCALLBACK"
    case 50 => "RCALLBACK"
    case 51 => "NOBIGINT"
    case 52 => "TRUNCDT"
    case _ => "SERVERNAME"
  }

  function Names54(i: nat): string
    requires 54 <= i < 60
  {
    match i
    case 54 => "USER"
    case 55 => "PASSWORD"
    case 56 => "DB"
    case 57 => "SSLFP"
    case 58 => "SSLFPLIST"
    case _ => "NO_CACHE"
  }

  function NameAt(i: nat): string
    requires i < COUNT
  {
    if i < 6 then Names0(i) else if i < 12 then Names6(i) else if i < 18 then Names12(i) else
    if i < 24 then Names18(i) else if i < 30 then Names24(i) else if i < 36 then Names30(i) else
    if i < 42 then Names36(i) else if i < 48 then Names42(i) else if i < 54 then Names48(i) else Names54(i)
  }

  /** The key an alias stands for. */
  function AliasAt(i: nat): Option<nat> {
    match i
    case 4 => Some(3)
    case 53 => Some(7)
    case 54 => Some(8)
    case 55 => Some(9)
    case 56 => Some(10)
    case 57 => Some(25)
    case 58 => Some(26)
    case 59 => Some(43)
    case _ => None
  }

  function KeyAt(i: nat): Key
    requires i < COUNT
  {
    Key(NameAt(i), AliasAt(i))
  }

  /** What each key is about. */
  function RoleAt(i: nat): Role
    requires i < COUNT
  {
    match i
    case 3 => OptionsMap
    case 5 => OptionBit(0)
    case 6 => TcpIpSwitch
    case 11 => Unsigned
    case 13 => Unsigned
    case 14 => OptionBit(1)
    case 15 => OptionBit(2)
    case 24 => ThreeWay
    case 31 => OptionBit(3)
    case 32 => Versions
    case 37 => OptionBit(4)
    case 39 => Unsigned
    case 40 => Unsigned
    case 43 => OptionBit(5)
    case 47 => Unsigned
    case 48 => Unsigned
    case 51 => OptionBit(6)
    case _ => if IsText(i) then Text else if AliasAt(i).Some? then Plain else Byte
  }

  /** MADB_DSN_Init. */
  function DefaultAt(i: nat): nat {
    match i
    case 24 => 255
    case 42 => 1
    case 47 => 250
    case 48 => 2112
    case 49 => 1
    case _ => 0
  }

  predicate IsText(i: nat) {
    0 <= i <= 2 || 7 <= i <= 10 || i == 12 || i == 16 || 18 <= i <= 23 || 25 <= i <= 30 || 34 <= i <= 35 || i == 44
  }

  const KEYS: seq<Key> := seq(COUNT, i requires 0 <= i < COUNT => KeyAt(i))
  const ROLES: seq<Role> := seq(COUNT, i requires 0 <= i < COUNT => RoleAt(i))
  const DEFAULTS: seq<nat> := seq(COUNT, i requires 0 <= i < COUNT => DefaultAt(i))

  /** A connection just made. */
  const NEW := Content(FRESH, map[], DEFAULTS)

  // ---------- No two names are the same ----------

  /** A number that does not depend on the case of the letters, and differs for the names of the table. */
  function Hash(s: string): int
    requires |s| > 1
  {
    3 * |s| + Code(s[|s| - 1]) + 10 * Code(s[|s| - 2]) + 6 * Code(s[0])
  }

  function Code(c: char): int { Lower(c) as int - 95 }

  /** The place of the name with the number. */
  function Place(hash: int): int {
    match hash
    case 254 => 0
    case 238 => 1
    case 127 => 2
    case 287 => 3
    case 289 => 4
    case 293 => 5
    case 258 => 6
    case 217 => 7
    case 246 => 8
    case 356 => 9
    case 260 => 10
    case 325 => 11
    case 245 => 12
    case 301 => 13
    case 115 => 14
    case 308 => 15
    case 126 => 16
    case 187 => 17
    case 251 => 18
    case 224 => 19
    case 352 => 20
    case 177 => 21
    case 366 => 22
    case 226 => 23
    case 243 => 24
    case 240 => 25
    case 386 => 26
    case 341 => 27
    case 369 => 28
    case 219 => 29
    case 280 => 30
    case 316 => 31
    case 331 => 32
    case 216 => 33
    case 233 => 34
    case 398 => 35
    case 329 => 36
    case 231 => 37
    case 338 => 38
    case 391 => 39
    case 424 => 40
    case 265 => 41
    case 300 => 42
    case 354 => 43
    case 253 => 44
    case 139 => 45
    case 309 => 46
    case 411 => 47
    case 203 => 48
    case 181 => 49
    case 193 => 50
    case 285 => 51
    case 218 => 52
    case 296 => 53
    case 223 => 54
    case 321 => 55
    case 89 => 56
    case 222 => 57
    case 368 => 58
    case 210 => 59
    case _ => -1
  }

  lemma Named0(i: nat)
    requires 0 <= i < 6
    ensures WellNamed(Names0(i)) && |Names0(i)| > 1 && Place(Hash(Names0(i))) == i
  {
    hide RoleAt, NameAt, KeyAt;
  }

  lemma Named6(i: nat)
    requires 6 <= i < 12
    ensures WellNamed(Names6(i)) && |Names6(i)| > 1 && Place(Hash(Names6(i))) == i
  {
    hide RoleAt, NameAt, KeyAt;
  }

  lemma Named12(i: nat)
    requires 12 <= i < 18
    ensures WellNamed(Names12(i)) && |Names12(i)| > 1 && Place(Hash(Names12(i))) == i
  {
    hide RoleAt, NameAt, KeyAt;
  }

  lemma Named18(i: nat)
    requires 18 <= i < 24
    ensures WellNamed(Names18(i)) && |Names18(i)| > 1 && Place(Hash(Names18(i))) == i
  {
    hide RoleAt, NameAt, KeyAt;
  }

  lemma Named24(i: nat)
    requires 24 <= i < 30
    ensures WellNamed(Names24(i)) && |Names24(i)| > 1 && Place(Hash(Names24(i))) == i
  {
    hide RoleAt, NameAt, KeyAt;
  }

  lemma Named30(i: nat)
    requires 30 <= i < 36
    ensures WellNamed(Names30(i)) && |Names30(i)| > 1 && Place(Hash(Names30(i))) == i
  {
    hide RoleAt, NameAt, KeyAt;
  }

  lemma Named36(i: nat)
    requires 36 <= i < 42
    ensures WellNamed(Names36(i)) && |Names36(i)| > 1 && Place(Hash(Names36(i))) == i
  {
    hide RoleAt, NameAt, KeyAt;
  }

  lemma Named42(i: nat)
    requires 42 <= i < 48
    ensures WellNamed(Names42(i)) && |Names42(i)| > 1 && Place(Hash(Names42(i))) == i
  {
    hide RoleAt, NameAt, KeyAt;
  }

  lemma Named48(i: nat)
    requires 48 <= i < 54
    ensures WellNamed(Names48(i)) && |Names48(i)| > 1 && Place(Hash(Names48(i))) == i
  {
    hide RoleAt, NameAt, KeyAt;
  }

  lemma Named54(i: nat)
    requires 54 <= i < 60
    ensures WellNamed(Names54(i)) && |Names54(i)| > 1 && Place(Hash(Names54(i))) == i
  {
    hide RoleAt, NameAt, KeyAt;
  }

  lemma SameHash(a: string, b: string)
    requires |a| > 1 && SameName(a, b)
    ensures Hash(a) == Hash(b)
  {
  }

  /** The table has what the parser and the printer rely on. */
  lemma TableIsSound()
    ensures Roles(KEYS, ROLES)
  {
    hide Place, Hash, RoleAt, WellNamed, NameAt, AliasAt;
    forall i | 0 <= i < COUNT
      ensures WellNamed(KEYS[i].name)
      ensures KEYS[i].alias.Some? ==> KEYS[i].alias.value < COUNT && KEYS[KEYS[i].alias.value].alias.None?
      ensures ROLES[i].OptionBit? ==> ROLES[i].k < OPTION_KEYS
    {
      AliasIsGood(i);
      NameIsGood(i);
    }
    forall i, j | 0 <= i < j < COUNT
      ensures !SameName(KEYS[i].name, KEYS[j].name)
    {
      NamesDiffer(i, j);
    }
  }

  lemma NamesDiffer(i: nat, j: nat)
    requires i < j < COUNT
    ensures !SameName(NameAt(i), NameAt(j))
  {
    hide Place, Hash, NameAt;
    NameIsGood(i);
    NameIsGood(j);
    if SameName(NameAt(i), NameAt(j)) {
      SameHash(NameAt(i), NameAt(j));
    }
  }

  lemma NameIsGood(i: nat)
    requires i < COUNT
    ensures WellNamed(NameAt(i)) && |NameAt(i)| > 1 && Place(Hash(NameAt(i))) == i
  {
    hide Place, Hash, WellNamed, Names0, Names6, Names12, Names18, Names24, Names30, Names36, Names42, Names48, Names54;
    if i < 6 {
      Named0(i);
    } else if i < 12 {
      Named6(i);
    } else if i < 18 {
      Named12(i);
    } else if i < 24 {
      Named18(i);
    } else if i < 30 {
      Named24(i);
    } else if i < 36 {
      Named30(i);
    } else if i < 42 {
      Named36(i);
    } else if i < 48 {
      Named42(i);
    } else if i < 54 {
      Named48(i);
    } else {
      Named54(i);
    }
  }

  lemma AliasIsGood(i: nat)
    requires i < COUNT
    ensures AliasAt(i).Some? ==> AliasAt(i).value < COUNT && AliasAt(AliasAt(i).value).None?
    ensures RoleAt(i).OptionBit? ==> RoleAt(i).k < OPTION_KEYS
  {
  }

  // ---------- The text that does not fit ----------

  lemma ShortName(i: nat)
    requires i < COUNT
    ensures |NameAt(i)| == 2 <==> i == 56
  {
    hide RoleAt, KeyAt;
  }

  lemma NamesAreLong()
    ensures LongNames(KEYS)
  {
    hide NameAt, Place, Hash, AliasAt;
    forall i | 0 <= i < |KEYS|
      ensures |KEYS[i].name| > 1
    {
      NameIsGood(i);
    }
  }

  /** With the keys of the driver there is one text, but for the case of letters, that the parser copies a character of
      behind the end of its buffer. */
  lemma OnlyBracedDb(text: string)
    ensures OneTooMany(KEYS, text) <==> SameName(text, "DB={")
  {
    hide NameAt, AliasAt, Trimmed, LeftTrimmed;
    TableIsSound();
    NamesAreLong();
    assert KEYS[56].name == NameAt(56) == "DB" by { DbName(); }
    if OneTooMany(KEYS, text) {
      var name := text[..2];
      KeyFound(KEYS, Trimmed(name));
      TrimmedWhole(name);
      var k := ConnString.Find(KEYS, name, 0).value;
      ShortName(k);
      assert forall i :: 0 <= i < 2 ==> Lower(name[i]) == Lower("DB"[i]);
      assert text == name + "={";
    }
    if SameName(text, "DB={") {
      SpelledDb(text);
    }
  }

  lemma DbName()
    ensures NameAt(56) == "DB"
  {
  }

  lemma SpelledDb(text: string)
    requires SameName(text, "DB={")
    ensures |text| == 4 && text[2..] == "={" && Trimmed(text[..2]) == text[..2] && SameName("DB", text[..2])
  {
    assert Lower(text[0]) == Lower("DB={"[0]) && Lower(text[1]) == Lower("DB={"[1]);
    assert Lower(text[2]) == Lower("DB={"[2]) && Lower(text[3]) == Lower("DB={"[3]);
    var s := text[..2];
    assert !IsSpace(s[0]) && !IsSpace(s[1]);
    assert LeftTrimmed(s) == s;
  }

  // ---------- Any connection string ----------

  function AssignsOf(stores: seq<Pair>): (assigns: seq<Assign>)
    requires Placed(stores, COUNT)
    ensures |assigns| == |stores|
    ensures forall i :: 0 <= i < |stores| ==> assigns[i] == AssignOf(RoleAt(stores[i].0), stores[i].1)
  {
    if stores == [] then []
    else AssignsOf(stores[..|stores| - 1]) + [AssignOf(RoleAt(stores[|stores| - 1].0), stores[|stores| - 1].1)]
  }

  /** The values stored one after the other leave the settings their assignments leave. */
  lemma {:induction false} PutAllApplies(s: Content, stores: seq<Pair>)
    requires Roles(KEYS, ROLES) && Shaped(s.settings) && Placed(stores, COUNT)
    ensures AllKnown(AssignsOf(stores))
    ensures PutAll(KEYS, ROLES, s, stores).settings == AppliedAll(s.settings, AssignsOf(stores))
    decreases |stores|
  {
    hide Applied, RoleAt, KeyAt, AssignOf;
    if stores != [] {
      var k := |stores| - 1;
      PutAllApplies(s, stores[..k]);
      assert AssignsOf(stores)[..k] == AssignsOf(stores[..k]);
      KnownAt(stores[k].0, stores[k].1);
    }
  }

  lemma KnownAt(i: nat, value: string)
    requires i < COUNT
    ensures Known(AssignOf(RoleAt(i), value))
  {
    AliasIsGood(i);
  }

  /** The keys that decide about the two switches. */
  predicate DecidingKey(i: nat) { i == 3 || i == 5 || i == 6 }

  lemma DecidesAt(i: nat, value: string)
    requires i < COUNT
    ensures Decides(AssignOf(RoleAt(i), value)) <==> DecidingKey(i)
  {
    hide UnsignedLong, Number, BitsOf, IsText;
  }

  /** A connection string of any text, read into a new connection: after each of its keys every option field is
      set exactly when its bit is, the two switches are never both set, and exactly one of them is set if and only
      if OPTIONS, NamedPipe or TCPIP has been among the keys so far. */
  lemma AnyTextAgrees(text: string, n: nat)
    requires n <= |Parse(KEYS, text).stores|
    ensures Roles(KEYS, ROLES) && Placed(Parse(KEYS, text).stores, COUNT)
    ensures var stores := Parse(KEYS, text).stores[..n];
            var s := PutAll(KEYS, ROLES, NEW, stores).settings;
            && FieldsAgree(s) && NotBoth(s)
            && (ExactlyOne(s) <==> exists i :: 0 <= i < n && DecidingKey(stores[i].0))
  {
    hide RoleAt, KeyAt, AssignOf, FieldsAgree, NotBoth, ExactlyOne, Parse, PutAll, Decides;
    TableIsSound();
    ParsePlaced(KEYS, text);
    var stores := Parse(KEYS, text).stores[..n];
    PutAllApplies(NEW, stores);
    AlwaysAgree(AssignsOf(stores));
    forall i | 0 <= i < n
      ensures Decides(AssignsOf(stores)[i]) <==> DecidingKey(stores[i].0)
    {
      DecidesAt(stores[i].0, stores[i].1);
    }
  }

  /** What is printed with the keys of the driver is read back with them exactly if every value comes through. */
  lemma PrintedIsRead(pairs: seq<Pair>)
    requires AllKeys(KEYS, pairs)
    ensures Parse(KEYS, Print(KEYS, pairs)) == Parsed(pairs, true) <==>
              forall i :: 0 <= i < |pairs| ==>
                if i + 1 < |pairs| then Printable(pairs[i].1) else PrintableLast(pairs[i].1)
  {
    hide Parse, Print, Printable, EndsBraced;
    TableIsSound();
    PrintParseExactly(KEYS, pairs);
  }
}
