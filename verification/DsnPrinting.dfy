/** A whole connection: printed with MADB_DsnToString, and read back with MADB_ParseConnString. */
module DsnPrinting {
  import opened Common
  import opened ConnString
  import opened DsnKeys
  import opened DsnOptions
  import opened DsnParser
  import T = DecimalText
  import R = Radix

  // ---------- OPTIONS as a number ----------

  const BITS := 32
  const TWO_TO_31 := 0x8000_0000

  /** The unsigned number with the bits from `from` on. */
  function Word(bits: Bits, from: nat): nat
    decreases BITS - from
  {
    if from >= BITS then 0 else (if from in bits then 1 else 0) + 2 * Word(bits, from + 1)
  }

  /** n * 2^k. */
  function Shifted(n: nat, k: nat): nat { if k == 0 then n else 2 * Shifted(n, k - 1) }

  lemma {:induction false} WordBound(bits: Bits, from: nat)
    requires from <= BITS
    ensures Word(bits, from) < Shifted(1, BITS - from)
    decreases BITS - from
  {
    if from < BITS {
      WordBound(bits, from + 1);
    }
  }

  function Above(bits: Bits, from: nat): Bits { set b | b in bits && b >= from }

  lemma AboveNext(bits: Bits, from: nat)
    ensures Above(bits, from) == (if from in bits then {from} else {}) + Above(bits, from + 1)
  {
  }

  lemma HalfOf(bit: nat, rest: nat)
    requires bit <= 1
    ensures (bit + 2 * rest) % 2 == bit && (bit + 2 * rest) / 2 == rest
  {
  }

  /** The bits of a number are those it was made of, whatever stands beyond the 32nd. */
  lemma {:induction false} BitsOfWord(bits: Bits, from: nat, high: nat)
    requires from <= BITS && forall b :: b in bits ==> b < BITS
    ensures BitsOf(Word(bits, from) + Shifted(high, BITS - from), from) == Above(bits, from)
    decreases BITS - from
  {
    hide Above;
    if from < BITS {
      var rest := Word(bits, from + 1) + Shifted(high, BITS - from - 1);
      HalfOf(if from in bits then 1 else 0, rest);
      BitsOfWord(bits, from + 1, high);
      AboveNext(bits, from);
    } else {
      NothingAbove(bits);
    }
  }

  lemma NothingAbove(bits: Bits)
    requires forall b :: b in bits ==> b < BITS
    ensures Above(bits, BITS) == {} && Above(bits, 0) == bits
  {
  }

  /** An int printed with %d. */
  function PrintedInt(word: nat): string
    requires word < TWO_TO_32
  {
    if word < TWO_TO_31 then T.Text(R.Decimal(word)) else "-" + T.Text(R.Decimal(TWO_TO_32 - word))
  }

  lemma {:induction false} DigitsAreValue(d: seq<nat>)
    requires R.IsDecimal(d)
    ensures Digits(T.Text(d)) == R.Value(d)
    decreases |d|
  {
    if d != [] {
      var k := |d| - 1;
      assert T.Text(d)[..k] == T.Text(d[..k]);
      DigitsAreValue(d[..k]);
    }
  }

  lemma {:induction false} AllDigits(s: string, i: nat)
    requires i <= |s| && forall k :: i <= k < |s| ==> '0' <= s[k] <= '9'
    ensures DigitsFrom(s, i) == |s|
    decreases |s| - i
  {
    if i < |s| {
      AllDigits(s, i + 1);
    }
  }

  lemma NumberOfText(n: nat)
    ensures Number(T.Text(R.Decimal(n))) == n && Number("-" + T.Text(R.Decimal(n))) == 0 - n
  {
    hide R.Value, Digits;
    var s := T.Text(R.Decimal(n));
    var t := "-" + s;
    assert s != "" && T.IsDigit(s[0]);
    AllDigits(s, 0);
    DigitsAreValue(R.Decimal(n));
    assert LeftTrimmed(s) == s && s[..|s|] == s;
    assert LeftTrimmed(t) == t && t[1..|t|] == s;
    AllDigits(t, 1);
  }

  /** OPTIONS, printed and read, has the same bits. */
  lemma OptionsReadBack(bits: Bits)
    requires forall b :: b in bits ==> b < BITS
    ensures Word(bits, 0) < TWO_TO_32
    ensures AssignOf(OptionsMap, PrintedInt(Word(bits, 0))) == Options(bits)
  {
    hide UnsignedLong, PrintedInt, Word, Shifted, BitsOf, Above;
    var w := Word(bits, 0);
    WordBound(bits, 0);
    PowersOfTwo();
    NothingAbove(bits);
    ReadAsUnsigned(w);
    BitsOfWord(bits, 0, if w < TWO_TO_31 then 0 else TWO_TO_32 - 1);
  }

  lemma ReadAsUnsigned(w: nat)
    requires w < TWO_TO_32
    ensures UnsignedLong(PrintedInt(w)) == w + if w < TWO_TO_31 then 0 else (TWO_TO_32 - 1) * TWO_TO_32
  {
    hide Number;
    if w < TWO_TO_31 {
      NumberOfText(w);
    } else {
      NumberOfText(TWO_TO_32 - w);
      WrapsAround(w);
    }
  }

  /** A negative number comes out of strtoul modulo 2^64. */
  lemma WrapsAround(w: int)
    requires TWO_TO_31 <= w < TWO_TO_32
    ensures (w - TWO_TO_32) % (ULONG_MAX + 1) == w + (TWO_TO_32 - 1) * TWO_TO_32
  {
  }

  lemma PowersOfTwo()
    ensures Shifted(1, 32) == TWO_TO_32
    ensures Shifted(0, 32) == 0 && Shifted(TWO_TO_32 - 1, 32) == (TWO_TO_32 - 1) * TWO_TO_32
  {
    ShiftedIs(1);
    ShiftedIs(0);
    ShiftedIs(TWO_TO_32 - 1);
  }

  lemma ShiftedIs(n: nat)
    ensures Shifted(n, 32) == n * TWO_TO_32
  {
    Shifted8(n, 0);
    Shifted8(n, 8);
    Shifted8(n, 16);
    Shifted8(n, 24);
  }

  lemma Shifted8(n: nat, k: nat)
    ensures Shifted(n, k + 8) == 256 * Shifted(n, k)
  {
    assert Shifted(n, k + 2) == 4 * Shifted(n, k);
    assert Shifted(n, k + 4) == 4 * Shifted(n, k + 2);
    assert Shifted(n, k + 6) == 4 * Shifted(n, k + 4);
  }

  // ---------- The whole connection ----------

  /** What a connection can hold: texts are stored under text keys, and an empty one counts as none; numbers have the
      width of their field. */
  ghost predicate Consistent(c: Content) {
    && FieldsAgree(c.settings) && NotBoth(c.settings)
    && (forall b :: b in c.settings.options ==> b < BITS)
    && (forall i :: i in c.texts ==> i < COUNT && RoleAt(i).Text? && c.texts[i] != "")
    && |c.numbers| == COUNT && (forall i :: 0 <= i < COUNT ==> c.numbers[i] < Width(RoleAt(i)))
  }

  function Width(role: Role): nat { if role.Unsigned? then TWO_TO_32 else if Numeric(role) then 256 else 1 }

  /** A signed char printed with %hu. */
  function PrintedByte(n: nat): string { T.Text(R.Decimal(if n < 128 then n else n + 65280)) }

  /** The text a number is printed as, if it is printed at all. */
  function NumberText(role: Role, n: nat): Option<string>
    requires n < Width(role)
  {
    match role
    case Unsigned => if n != 0 then Some(PrintedInt(n)) else None
    case Byte => if n != 0 && n != 255 then Some("1") else None
    case ThreeWay => if n == 255 then None else Some(if n != 0 then "1" else "0")
    case Versions => if n != 0 then Some(PrintedByte(n)) else None
    case _ => None
  }

  /** The number after printing and reading: what is not printed stays as it is in a new connection. */
  function NumberBack(role: Role, n: nat, initial: nat): nat {
    match role
    case Unsigned => if n != 0 then n else initial
    case Byte => if n != 0 && n != 255 then 1 else initial
    case ThreeWay => if n == 255 then initial else if n != 0 then 1 else 0
    case Versions => if n != 0 then n else initial
    case _ => initial
  }

  /** Numbers that come back: a 32-bit number or a set of TLS versions if it is not zero or zero is what a new
      connection holds; a flag if it is 1, or is not printed and is what a new connection holds; the three-way flag
      if it is 0, 1 or the default. */
  predicate ComesBack(i: nat, n: nat)
    requires i < COUNT
  {
    match RoleAt(i)
    case Unsigned => n != 0 || DefaultAt(i) == 0
    case Byte => n == 1 || ((n == 0 || n == 255) && n == DefaultAt(i))
    case ThreeWay => n <= 1 || n == 255
    case _ => true
  }

  lemma ComesBackExactly(i: nat, n: nat)
    requires i < COUNT && n < Width(RoleAt(i))
    ensures ComesBack(i, n) <==> NumberBack(RoleAt(i), n, DefaultAt(i)) == n
  {
  }

  /** What is printed for the key at place `i`. */
  ghost function PairOf(c: Content, i: nat): seq<Pair>
    requires Consistent(c) && i < COUNT
  {
    match RoleAt(i)
    case Text => if i in c.texts then [(i, c.texts[i])] else []
    case OptionsMap =>
      if c.settings.options != {} && Word(c.settings.options, 0) < TWO_TO_32
      then [(i, PrintedInt(Word(c.settings.options, 0)))] else []
    case TcpIpSwitch => if c.settings.tcpIp then [(i, "1")] else []
    case _ =>
      match NumberText(RoleAt(i), c.numbers[i])
      case Some(text) => [(i, text)]
      case None => []
  }

  /** MADB_DsnToString goes over the key table. */
  ghost function PairsOf(c: Content, n: nat): seq<Pair>
    requires n <= COUNT && Consistent(c)
  {
    if n == 0 then [] else PairsOf(c, n - 1) + PairOf(c, n - 1)
  }

  /** The settings after the keys before place `n`. */
  function SettingsBelow(s: Settings, n: nat): seq<Assign> {
    (if n > 3 && s.options != {} then [Options(s.options)] else []) + (if n > 6 && s.tcpIp then [TcpIp(true)] else [])
  }

  /** The numbers after the keys before place `n`. */
  function NumbersBelow(numbers: seq<nat>, n: nat): (below: seq<nat>)
    requires |numbers| == COUNT
    ensures |below| == COUNT
  {
    seq(COUNT, i requires 0 <= i < COUNT =>
      if i < n then NumberBack(RoleAt(i), numbers[i], DefaultAt(i)) else DefaultAt(i))
  }

  function TextsBelow(texts: map<nat, string>, n: nat): map<nat, string> { map i | i in texts && i < n :: texts[i] }

  lemma DecidingRoles(i: nat)
    requires i < COUNT
    ensures RoleAt(i).OptionsMap? <==> i == 3
    ensures RoleAt(i).TcpIpSwitch? <==> i == 6
  {
  }

  lemma OneIsOn()
    ensures Number("1") == 1 && Number("0") == 0
  {
    hide Digits;
    DigitNumber("1");
    DigitNumber("0");
  }

  lemma DigitNumber(s: string)
    requires |s| == 1 && T.IsDigit(s[0])
    ensures Number(s) == T.DigitOf(s[0])
  {
    assert LeftTrimmed(s) == s;
    AllDigits(s, 0);
    assert s[..1] == s && s[..0] == "";
    assert Digits(s) == 10 * Digits("") + T.DigitOf(s[0]);
  }

  lemma PairPlaced(c: Content, i: nat)
    requires Consistent(c) && i < COUNT
    ensures AllKeys(KEYS, PairOf(c, i)) && Placed(PairOf(c, i), COUNT)
  {
    if AliasAt(i).Some? {
      AliasesArePlain(i);
    }
  }

  lemma AliasesArePlain(i: nat)
    requires i < COUNT && AliasAt(i).Some?
    ensures RoleAt(i).Plain?
  {
  }

  lemma {:induction false} PairsPlaced(c: Content, n: nat)
    requires Consistent(c) && n <= COUNT
    ensures AllKeys(KEYS, PairsOf(c, n)) && Placed(PairsOf(c, n), COUNT)
  {
    hide PairOf, KeyAt;
    if n > 0 {
      PairsPlaced(c, n - 1);
      PairPlaced(c, n - 1);
    }
  }

  lemma BytesReadBack(n: nat)
    requires n < 256
    ensures Number(PrintedByte(n)) % 256 == n
  {
    hide R.Decimal, Number;
    NumberOfText(if n < 128 then n else n + 65280);
  }

  /** A number that is printed is read as the number it comes back as. */
  lemma NumberStored(role: Role, n: nat, initial: nat)
    requires n < Width(role) && NumberText(role, n).Some?
    ensures Numeric(role) && NumberFor(role, NumberText(role, n).value) == NumberBack(role, n, initial)
  {
    hide Number, PrintedInt, PrintedByte, VersionsIn;
    if role.Unsigned? {
      ReadAsUnsigned(n);
      UnsignedCut(n);
    } else {
      BytesReadBack(n);
      OneIsOn();
    }
  }

  lemma UnsignedCut(w: nat)
    requires w < TWO_TO_32
    ensures (w + (TWO_TO_32 - 1) * TWO_TO_32) % TWO_TO_32 == w
  {
  }

  /** What a single printed pair does when it is stored. */
  lemma PairStored(c: Content, s: Content, i: nat)
    requires Consistent(c) && Shaped(s.settings) && |s.numbers| == COUNT && i < COUNT && PairOf(c, i) != []
    requires RoleAt(i).OptionBit? ==> RoleAt(i).k < OPTION_KEYS
    ensures |PairOf(c, i)| == 1 && PairOf(c, i)[0].0 == i
    ensures var e := Put(RoleAt(i), s, i, PairOf(c, i)[0].1);
            e == match RoleAt(i)
                 case Text => if i in c.texts then s.(texts := s.texts[i := c.texts[i]]) else e
                 case OptionsMap => s.(settings := Applied(s.settings, Options(c.settings.options)))
                 case TcpIpSwitch => s.(settings := Applied(s.settings, TcpIp(true)))
                 case _ => s.(numbers := s.numbers[i := NumberBack(RoleAt(i), c.numbers[i], DefaultAt(i))])
    ensures RoleAt(i).Text? || RoleAt(i).OptionsMap? || RoleAt(i).TcpIpSwitch? || Numeric(RoleAt(i))
    ensures RoleAt(i).Text? ==> i in c.texts
    ensures RoleAt(i).OptionsMap? ==> c.settings.options != {}
    ensures RoleAt(i).TcpIpSwitch? ==> c.settings.tcpIp
  {
    hide RoleAt, PrintedInt, PrintedByte, Word, Number, FromBits, NumberFor, NumberBack, NumberText, UnsignedLong;
    OptionsReadBack(c.settings.options);
    OneIsOn();
    if NumberText(RoleAt(i), c.numbers[i]).Some? {
      NumberStored(RoleAt(i), c.numbers[i], DefaultAt(i));
    }
  }

  lemma NothingPrinted(c: Content, i: nat)
    requires Consistent(c) && i < COUNT && PairOf(c, i) == []
    ensures RoleAt(i).Text? ==> i !in c.texts
    ensures i in c.texts ==> RoleAt(i).Text?
    ensures RoleAt(i).OptionsMap? ==> c.settings.options == {}
    ensures RoleAt(i).TcpIpSwitch? ==> !c.settings.tcpIp
    ensures NumberBack(RoleAt(i), c.numbers[i], DefaultAt(i)) == DefaultAt(i)
  {
    hide RoleAt, PrintedInt, PrintedByte, Word;
    OptionsReadBack(c.settings.options);
  }

  lemma NumbersNext(numbers: seq<nat>, i: nat)
    requires |numbers| == COUNT && i < COUNT
    ensures NumbersBelow(numbers, i + 1)
            == NumbersBelow(numbers, i)[i := NumberBack(RoleAt(i), numbers[i], DefaultAt(i))]
    ensures NumbersBelow(numbers, i)[i] == DefaultAt(i)
  {
    hide RoleAt, DefaultAt, NumberBack;
  }

  lemma NumbersSame(numbers: seq<nat>, i: nat)
    requires |numbers| == COUNT && i < COUNT
    requires NumberBack(RoleAt(i), numbers[i], DefaultAt(i)) == DefaultAt(i)
    ensures NumbersBelow(numbers, i + 1) == NumbersBelow(numbers, i)
  {
    hide RoleAt, DefaultAt, NumberBack;
    NumbersNext(numbers, i);
  }

  lemma NoNumber(i: nat, n: nat)
    requires i < COUNT && !Numeric(RoleAt(i))
    ensures NumberBack(RoleAt(i), n, DefaultAt(i)) == DefaultAt(i)
  {
  }

  lemma TextsNext(texts: map<nat, string>, i: nat)
    ensures TextsBelow(texts, i + 1) == if i in texts then TextsBelow(texts, i)[i := texts[i]] else TextsBelow(texts, i)
  {
  }

  lemma SettingsNext(s: Settings, i: nat)
    ensures SettingsBelow(s, i + 1) == SettingsBelow(s, i) +
              if i == 3 && s.options != {} then [Options(s.options)]
              else if i == 6 && s.tcpIp then [TcpIp(true)] else []
  {
  }

  lemma AppliedMore(s: Settings, assigns: seq<Assign>, a: Assign)
    requires Shaped(s) && AllKnown(assigns) && Known(a)
    ensures AppliedAll(s, assigns + [a]) == Applied(AppliedAll(s, assigns), a)
  {
    assert (assigns + [a])[..|assigns|] == assigns;
  }

  lemma PutOne(s: Content, stores: seq<Pair>, p: Pair)
    requires Roles(KEYS, ROLES) && Shaped(s.settings) && Placed(stores, COUNT) && p.0 < COUNT
    ensures Placed(stores + [p], COUNT)
    ensures PutAll(KEYS, ROLES, s, stores + [p]) == Put(ROLES[p.0], PutAll(KEYS, ROLES, s, stores), p.0, p.1)
  {
    assert (stores + [p])[..|stores|] == stores;
  }

  /** The state after the keys before place `n`. */
  ghost function Below(c: Content, n: nat): Content
    requires Consistent(c)
  {
    Content(AppliedAll(FRESH, SettingsBelow(c.settings, n)), TextsBelow(c.texts, n), NumbersBelow(c.numbers, n))
  }

  lemma BelowNext(c: Content, i: nat)
    requires Consistent(c) && i < COUNT
    requires RoleAt(i).OptionBit? ==> RoleAt(i).k < OPTION_KEYS
    ensures Shaped(Below(c, i).settings)
    ensures Below(c, i + 1)
            == if PairOf(c, i) == [] then Below(c, i) else Put(RoleAt(i), Below(c, i), i, PairOf(c, i)[0].1)
  {
    hide RoleAt, PairOf, Put, Applied, AppliedAll, TextsBelow, SettingsBelow, NumbersBelow, NumberBack, DefaultAt;
    DecidingRoles(i);
    TextsNext(c.texts, i);
    SettingsNext(c.settings, i);
    SettingsKnown(c.settings, i);
    assert SettingsBelow(c.settings, i) + [] == SettingsBelow(c.settings, i);
    if PairOf(c, i) == [] {
      NothingPrinted(c, i);
      NumbersSame(c.numbers, i);
    } else {
      PairStored(c, Below(c, i), i);
      TextsHaveTextRole(c, i);
      AppliedMore(FRESH, SettingsBelow(c.settings, i), Options(c.settings.options));
      AppliedMore(FRESH, SettingsBelow(c.settings, i), TcpIp(true));
      if Numeric(RoleAt(i)) {
        NumbersNext(c.numbers, i);
      } else {
        NoNumber(i, c.numbers[i]);
        NumbersSame(c.numbers, i);
      }
    }
  }

  lemma TextsHaveTextRole(c: Content, i: nat)
    requires Consistent(c)
    ensures i in c.texts ==> i < COUNT && RoleAt(i).Text?
  {
  }

  lemma SettingsKnown(s: Settings, n: nat)
    ensures AllKnown(SettingsBelow(s, n))
  {
  }

  /** Storing what was printed for the keys before place `n`, one after the other. */
  lemma {:induction false} PairsStored(c: Content, n: nat)
    requires Consistent(c) && Roles(KEYS, ROLES) && n <= COUNT
    ensures Placed(PairsOf(c, n), COUNT) && PutAll(KEYS, ROLES, NEW, PairsOf(c, n)) == Below(c, n)
  {
    hide Consistent, PairOf, Put, Below, Roles, Placed;
    PairsPlaced(c, n);
    if n == 0 {
      NothingBelow(c);
    } else {
      var i := n - 1;
      PairsPlaced(c, i);
      PairsStored(c, i);
      RoleIsGood(i);
      BelowNext(c, i);
      if PairOf(c, i) == [] {
        assert PairsOf(c, i) + [] == PairsOf(c, i);
      } else {
        PairStored(c, Below(c, i), i);
        assert PairOf(c, i) == [PairOf(c, i)[0]];
        PutOne(NEW, PairsOf(c, i), PairOf(c, i)[0]);
      }
    }
  }

  lemma RoleIsGood(i: nat)
    requires i < COUNT
    ensures RoleAt(i).OptionBit? ==> RoleAt(i).k < OPTION_KEYS
    ensures ROLES[i] == RoleAt(i) && Shaped(FRESH)
  {
    hide RoleAt;
    AliasIsGood(i);
  }

  lemma NothingBelow(c: Content)
    requires Consistent(c)
    ensures Below(c, 0) == NEW
    ensures Roles(KEYS, ROLES) ==> PutAll(KEYS, ROLES, NEW, []) == NEW
  {
  }

  lemma AllBelow(c: Content)
    requires Consistent(c)
    ensures AllKnown(Printed(c.settings))
    ensures Below(c, COUNT)
            == Content(AppliedAll(FRESH, Printed(c.settings)), c.texts, NumbersBelow(c.numbers, COUNT))
  {
    hide RoleAt;
    assert TextsBelow(c.texts, COUNT) == c.texts;
  }

  lemma AllNumbersBelow(c: Content)
    requires Consistent(c)
    ensures NumbersBelow(c.numbers, COUNT) == c.numbers <==> forall i :: 0 <= i < COUNT ==> ComesBack(i, c.numbers[i])
  {
    hide RoleAt, DefaultAt, NumberBack, ComesBack;
    forall i | 0 <= i < COUNT
      ensures ComesBack(i, c.numbers[i]) <==> NumbersBelow(c.numbers, COUNT)[i] == c.numbers[i]
    {
      ComesBackExactly(i, c.numbers[i]);
    }
  }

  // ---------- Its text ----------

  lemma {:induction false} NoSpaces(s: string)
    requires forall i :: 0 <= i < |s| ==> !IsSpace(s[i])
    ensures Trimmed(s) == s
  {
  }

  /** A printed number is a plain value. */
  lemma NumbersArePrintable(word: nat)
    requires word < TWO_TO_32
    ensures Printable(PrintedInt(word)) && Printable("1") && Printable("0")
    ensures word < 256 ==> Printable(PrintedByte(word))
  {
    hide R.Decimal, Trimmed;
    NoSpaces(PrintedInt(word));
    NoSpaces(PrintedByte(word));
    NoSpaces("1");
    NoSpaces("0");
  }

  lemma {:induction false} PairsPrintable(c: Content, n: nat)
    requires Consistent(c) && n <= COUNT && forall i :: i in c.texts ==> Printable(c.texts[i])
    ensures forall k :: 0 <= k < |PairsOf(c, n)| ==> Printable(PairsOf(c, n)[k].1)
  {
    hide Consistent, PairOf, Printable;
    if n > 0 {
      PairsPrintable(c, n - 1);
      PairPrintable(c, n - 1);
    }
  }

  lemma PairPrintable(c: Content, i: nat)
    requires Consistent(c) && i < COUNT && forall i :: i in c.texts ==> Printable(c.texts[i])
    ensures forall k :: 0 <= k < |PairOf(c, i)| ==> Printable(PairOf(c, i)[k].1)
  {
    hide RoleAt, PrintedInt, PrintedByte, Word, Printable;
    NumbersArePrintable(c.numbers[i]);
    if Word(c.settings.options, 0) < TWO_TO_32 {
      NumbersArePrintable(Word(c.settings.options, 0));
    } else {
      NumbersArePrintable(0);
    }
  }

  /** A connection whose texts come through is printed, and the text parsed into a new one: the option bits, the
      fields that repeat them, the two switches, all texts and all numbers are as they were, if and only if no option
      is set or one of the switches is, and every number comes back. */
  lemma ConnectionRoundTrip(c: Content)
    requires Consistent(c) && forall i :: i in c.texts ==> Printable(c.texts[i])
    ensures AllKeys(KEYS, PairsOf(c, COUNT)) && Roles(KEYS, ROLES)
    ensures var parsed := Parse(KEYS, Print(KEYS, PairsOf(c, COUNT)));
            && parsed.ok && Placed(parsed.stores, COUNT)
            && (PutAll(KEYS, ROLES, NEW, parsed.stores) == c
                <==> (c.settings.options == {} || ExactlyOne(c.settings))
                     && forall i :: 0 <= i < COUNT ==> ComesBack(i, c.numbers[i]))
  {
    hide Printable, EndsBraced, Parse, Print, PairsOf, PutAll, Roles, AllKeys, Placed, Below, AppliedAll, ComesBack;
    TableIsSound();
    PairsPlaced(c, COUNT);
    PairsPrintable(c, COUNT);
    PrintedIsRead(PairsOf(c, COUNT));
    PairsStored(c, COUNT);
    AllBelow(c);
    AllNumbersBelow(c);
    SettingsRoundTrip(c.settings);
  }

  const NULLISCURRENT := 42

  /** NULLISCURRENT switched off by the application is on again after printing and reading. */
  lemma ZeroIsLost()
    ensures var off := NEW.(numbers := NEW.numbers[NULLISCURRENT := 0]);
            && Consistent(off) && AllKeys(KEYS, PairsOf(off, COUNT)) && Roles(KEYS, ROLES)
            && var stores := Parse(KEYS, Print(KEYS, PairsOf(off, COUNT))).stores;
               Placed(stores, COUNT) && PutAll(KEYS, ROLES, NEW, stores).numbers[NULLISCURRENT] == 1
  {
    hide Parse, Print, PutAll, Roles, AllKeys, Placed, AppliedAll, PairsOf;
    var off := NEW.(numbers := NEW.numbers[NULLISCURRENT := 0]);
    NewIsConsistent(0);
    TableIsSound();
    PairsPlaced(off, COUNT);
    PairsPrintable(off, COUNT);
    PrintedIsRead(PairsOf(off, COUNT));
    PairsStored(off, COUNT);
    AllBelow(off);
  }

  lemma NewIsConsistent(n: nat)
    requires n < 256
    ensures Consistent(NEW.(numbers := NEW.numbers[NULLISCURRENT := n]))
  {
    FreshAgrees();
  }
}
