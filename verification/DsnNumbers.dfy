/** What a number given for a key of a connection string does to a connection, whatever the connection holds. */
module DsnNumbers {
  import opened Common
  import opened ConnString
  import opened DsnKeys
  import opened DsnOptions
  import opened DsnParser
  import T = DecimalText
  import P = DsnPrinting
  import R = Radix

  // ---------- Numbers at the start of a text ----------

  /** White space, a sign, the digits of a number, and something that does not go on with a digit. */
  lemma NumberRead(space: string, sign: string, n: nat, rest: string)
    requires (forall i :: 0 <= i < |space| ==> IsSpace(space[i])) && sign in {"", "-", "+"}
    requires rest == "" || !T.IsDigit(rest[0])
    ensures Number(space + sign + T.Text(R.Decimal(n)) + rest) == if sign == "-" then 0 - n else n
  {
    hide R.Value, Digits, LeftTrimmed, T.Text, R.Decimal, Number;
    var digits := T.Text(R.Decimal(n));
    assert space + sign + digits + rest == space + (sign + digits + rest);
    StartsNumber(sign, digits, rest);
    SpaceIgnored(space, sign + digits + rest);
    P.DigitsAreValue(R.Decimal(n));
    SignedDigits(sign, digits, rest);
  }

  lemma StartsNumber(sign: string, digits: string, rest: string)
    requires sign in {"", "-", "+"} && digits != "" && T.IsDigit(digits[0])
    ensures var s := sign + digits + rest; s != "" && !IsSpace(s[0]) && s[0] == (sign + digits)[0]
  {
  }

  lemma SpaceIgnored(space: string, s: string)
    requires (forall i :: 0 <= i < |space| ==> IsSpace(space[i])) && s != "" && !IsSpace(s[0])
    ensures Number(space + s) == Number(s) && LeftTrimmed(s) == s
  {
    SpaceSkipped(space, s);
    SpaceSkipped("", s);
    assert "" + s == s;
  }

  lemma SignedDigits(sign: string, digits: string, rest: string)
    requires sign in {"", "-", "+"} && digits != "" && forall i :: 0 <= i < |digits| ==> T.IsDigit(digits[i])
    requires rest == "" || !T.IsDigit(rest[0])
    ensures Number(sign + digits + rest) == if sign == "-" then 0 - Digits(digits) else Digits(digits)
  {
    hide Digits, LeftTrimmed, DigitsFrom;
    var s := sign + digits + rest;
    StartsNumber(sign, digits, rest);
    SpaceIgnored("", s);
    DigitsEndThere(sign, digits, rest);
    if sign == "" {
      assert s[0] == digits[0];
      assert s[0..|digits|] == s[..|digits|];
    } else {
      assert s[0] == sign[0] && |sign| == 1;
    }
  }

  lemma {:induction false} SpaceSkipped(space: string, s: string)
    requires (forall i :: 0 <= i < |space| ==> IsSpace(space[i])) && (s == "" || !IsSpace(s[0]))
    ensures LeftTrimmed(space + s) == s
  {
    if space == "" {
      assert space + s == s;
    } else {
      SpaceSkipped(space[1..], s);
      assert (space + s)[1..] == space[1..] + s;
    }
  }

  lemma DigitsEndThere(a: string, digits: string, rest: string)
    requires (forall i :: 0 <= i < |digits| ==> T.IsDigit(digits[i])) && (rest == "" || !T.IsDigit(rest[0]))
    ensures var s, end := a + digits + rest, |a| + |digits|;
            DigitsFrom(s, |a|) == end && s[|a|..end] == digits
  {
    var s, end := a + digits + rest, |a| + |digits|;
    assert forall i :: |a| <= i < end ==> s[i] == digits[i - |a|];
    assert end < |s| ==> s[end] == rest[0];
    DigitsRun(s, |a|, end);
  }

  lemma {:induction false} DigitsRun(s: string, i: nat, end: nat)
    requires i <= end <= |s| && (forall k :: i <= k < end ==> T.IsDigit(s[k])) && (end < |s| ==> !T.IsDigit(s[end]))
    ensures DigitsFrom(s, i) == end
    decreases end - i
  {
    if i < end {
      DigitsRun(s, i + 1, end);
    }
  }

  /** A text that starts with no digit is taken for zero. */
  lemma NoNumberRead(s: string)
    requires s == "" || (!IsSpace(s[0]) && s[0] != '-' && s[0] != '+' && !T.IsDigit(s[0]))
    ensures Number(s) == 0
  {
    assert LeftTrimmed(s) == s;
    assert DigitsFrom(s, 0) == 0;
  }

  lemma PlainNumber(n: nat)
    ensures Number(T.Text(R.Decimal(n))) == n
    ensures UnsignedLong(T.Text(R.Decimal(n))) == if n <= ULONG_MAX then n else ULONG_MAX
  {
    hide Number, R.Decimal;
    P.NumberOfText(n);
  }

  // ---------- A connection after one key ----------

  function OneKey(name: string, n: nat): string { name + "=" + T.Text(R.Decimal(n)) }

  /** The connection after a text has been parsed into it. Every text has such a parse. */
  ghost function ReadInto(keys: seq<Key>, roles: seq<Role>, c: Content, text: string): (e: Content)
    requires Shaped(c.settings)
    ensures Shaped(e.settings)
  {
    if Roles(keys, roles) && Placed(Parse(keys, text).stores, |keys|)
    then PutAll(keys, roles, c, Parse(keys, text).stores) else c
  }

  lemma EveryTextIsRead(text: string)
    ensures Roles(KEYS, ROLES) && Placed(Parse(KEYS, text).stores, COUNT)
  {
    hide Parse;
    TableIsSound();
    ParsePlaced(KEYS, text);
  }

  /** The name is one of the table, in any case of letters, and stands for the key at place `i`. */
  predicate Names(name: string, i: nat) {
    exists j | 0 <= j < COUNT :: NamesFrom(name, i, j)
  }

  predicate NamesFrom(name: string, i: nat, j: nat)
    requires j < COUNT
  {
    SameName(NameAt(j), name) && i == (if AliasAt(j).Some? then AliasAt(j).value else j)
  }

  /** A key, in any case of letters or by an alias, and a value: it is stored for the key meant, and nothing is left
      over. */
  lemma ValueStoredFor(c: Content, name: string, i: nat, raw: string, v: string)
    requires Shaped(c.settings) && Names(name, i) && IsValue(ValueOf(raw), v, "")
    ensures i < COUNT && (RoleAt(i).OptionBit? ==> RoleAt(i).k < OPTION_KEYS)
    ensures Parse(KEYS, name + "=" + raw) == Parsed([(i, v)], true)
    ensures ReadInto(KEYS, ROLES, c, name + "=" + raw) == Put(RoleAt(i), c, i, v)
  {
    hide NameAt, AliasAt, RoleAt, Put, SameName, Parse, ValueOf;
    var j :| 0 <= j < COUNT && NamesFrom(name, i, j);
    EveryTextIsRead(name + "=" + raw);
    AliasIsGood(j);
    assert KEYS[j].name == NameAt(j) && KEYS[j].alias == AliasAt(j);
    ParseMeant(KEYS, j, name, raw);
    NothingParsed();
    assert [(i, v)] + [] == [(i, v)];
    AliasIsGood(i);
    OneStored(KEYS, ROLES, c, (i, v));
    assert ROLES[i] == RoleAt(i);
  }

  lemma NumberStoredFor(c: Content, name: string, i: nat, n: nat)
    requires Shaped(c.settings) && Names(name, i)
    ensures i < COUNT && (RoleAt(i).OptionBit? ==> RoleAt(i).k < OPTION_KEYS)
    ensures ReadInto(KEYS, ROLES, c, OneKey(name, n)) == Put(RoleAt(i), c, i, T.Text(R.Decimal(n)))
  {
    hide RoleAt, Put, ReadInto, Names, IsValue;
    DecimalIsValue(n);
    ValueStoredFor(c, name, i, T.Text(R.Decimal(n)), T.Text(R.Decimal(n)));
  }

  lemma OneStored(keys: seq<Key>, roles: seq<Role>, c: Content, p: Pair)
    requires Roles(keys, roles) && Shaped(c.settings) && p.0 < |keys|
    ensures Placed([p], |keys|) && PutAll(keys, roles, c, [p]) == Put(roles[p.0], c, p.0, p.1)
  {
    hide Put;
    assert [p][..0] == [];
    assert PutAll(keys, roles, c, []) == c;
  }

  lemma NothingParsed()
    ensures Parse(KEYS, "") == Parsed([], true)
  {
  }

  lemma DecimalIsValue(n: nat)
    ensures IsValue(ValueOf(T.Text(R.Decimal(n))), T.Text(R.Decimal(n)), "")
  {
    hide ValueOf, R.Decimal, Trimmed;
    var v := T.Text(R.Decimal(n));
    P.NoSpaces(v);
    PlainPrinted(v, "");
    assert v + "" == v;
  }

  /** Nothing but the settings differs. */
  predicate SameOtherwise(c: Content, e: Content) { e.texts == c.texts && e.numbers == c.numbers }

  /** Every option key of the table, with any number and in any connection: the option is on, and its bit set, if and
      only if the number is not zero. The other options and bits stay as they were; TCPIP is switched against NamedPipe
      by that key, and left alone by the others. */
  lemma OptionKeyRead(c: Content, name: string, i: nat, n: nat)
    requires Shaped(c.settings) && i < COUNT && RoleAt(i).OptionBit? && Names(name, i)
    ensures RoleAt(i).k < OPTION_KEYS
    ensures var k, e := RoleAt(i).k, ReadInto(KEYS, ROLES, c, OneKey(name, n));
            && (e.settings.fields[k] <==> n != 0)
            && (Flag(k) in e.settings.options <==> n != 0)
            && (forall j :: 0 <= j < OPTION_KEYS && j != k ==> e.settings.fields[j] == c.settings.fields[j])
            && (forall b :: b != Flag(k) ==> (b in e.settings.options <==> b in c.settings.options))
            && (forall j :: 0 <= j < OPTION_KEYS && j != k ==> Flag(j) != Flag(k))
            && e.settings.tcpIp == (if k == NAMED_PIPE then n == 0 else c.settings.tcpIp)
            && SameOtherwise(c, e)
  {
    hide Flag, RoleAt, UnsignedLong, Number, R.Decimal, T.Text, ReadInto, OneKey, Names;
    NumberStoredFor(c, name, i, n);
    PlainNumber(n);
    forall j | 0 <= j < OPTION_KEYS && j != RoleAt(i).k
      ensures Flag(j) != Flag(RoleAt(i).k)
    {
      FlagsDistinct(j, RoleAt(i).k);
    }
  }

  /** TCPIP, of which only the lowest byte counts: NamedPipe and its bit are switched against it, all other options and
      bits stay. */
  lemma TcpIpRead(c: Content, name: string, i: nat, n: nat)
    requires Shaped(c.settings) && i < COUNT && RoleAt(i).TcpIpSwitch? && Names(name, i)
    ensures var e := ReadInto(KEYS, ROLES, c, OneKey(name, n));
            && (e.settings.tcpIp <==> n % 256 != 0)
            && (e.settings.fields[NAMED_PIPE] <==> n % 256 == 0)
            && (Flag(NAMED_PIPE) in e.settings.options <==> n % 256 == 0)
            && (forall j :: 0 < j < OPTION_KEYS ==> e.settings.fields[j] == c.settings.fields[j])
            && (forall b :: b != Flag(NAMED_PIPE) ==> (b in e.settings.options <==> b in c.settings.options))
            && SameOtherwise(c, e)
  {
    hide Flag, RoleAt, UnsignedLong, Number, R.Decimal, T.Text, ReadInto, OneKey, Names;
    NumberStoredFor(c, name, i, n);
    PlainNumber(n);
  }

  // ---------- OPTIONS ----------

  /** Bit `b` of a number. */
  predicate HasBit(n: nat, b: nat) { n / R.Pow(2, b) % 2 == 1 }

  lemma HalfHasBit(n: nat, b: nat)
    ensures HasBit(n, b + 1) <==> HasBit(n / 2, b)
  {
    var p := R.Pow(2, b);
    DivTwice(n, p);
  }

  lemma DivTwice(n: nat, p: nat)
    requires p > 0
    ensures n / (2 * p) == (n / 2) / p
  {
    var d, m := n / 2 / p, n / 2 % p;
    assert n / 2 == d * p + m;
    var r := 2 * m + n % 2;
    assert n == 2 * (d * p + m) + n % 2;
    assert 2 * (d * p) == d * (2 * p);
    R.DivExact(d, 2 * p, r);
  }

  lemma {:induction false} BitsAreBits(n: nat, from: nat)
    requires from <= 32
    ensures forall b: nat :: b in BitsOf(n, from) <==> from <= b < 32 && HasBit(n, b - from)
    decreases 32 - from
  {
    hide HasBit;
    if from < 32 {
      BitsAreBits(n / 2, from + 1);
      LowestBit(n);
      forall b: nat
        ensures b in BitsOf(n, from) <==> from <= b < 32 && HasBit(n, b - from)
      {
        if from < b < 32 {
          HalfHasBit(n, b - from - 1);
        }
      }
    }
  }

  lemma LowestBit(n: nat)
    ensures HasBit(n, 0) <==> n % 2 == 1
  {
    assert R.Pow(2, 0) == 1;
  }

  /** OPTIONS as a number: the bits of the connection are the 32 lowest ones of the number, every option is on if and
      only if its bit is set, and TCPIP is switched against NamedPipe. */
  lemma OptionsRead(c: Content, name: string, i: nat, n: nat)
    requires Shaped(c.settings) && i < COUNT && RoleAt(i).OptionsMap? && Names(name, i) && n <= ULONG_MAX
    ensures var e := ReadInto(KEYS, ROLES, c, OneKey(name, n));
            && (forall b: nat :: b in e.settings.options <==> b < 32 && HasBit(n, b))
            && (forall k :: 0 <= k < OPTION_KEYS ==> (e.settings.fields[k] <==> HasBit(n, Flag(k))))
            && (e.settings.tcpIp <==> !HasBit(n, Flag(NAMED_PIPE)))
            && SameOtherwise(c, e)
  {
    hide Flag, RoleAt, UnsignedLong, Number, R.Decimal, T.Text, ReadInto, OneKey, Names, HasBit, BitsOf, FromBits;
    NumberStoredFor(c, name, i, n);
    PlainNumber(n);
    BitsAreBits(n, 0);
    FromBitsAgree(c.settings.(options := BitsOf(n, 0)), OPTION_KEYS);
  }

  /** The numbers of the options, as they stand in the driver's header. */
  lemma OptionMasks()
    ensures R.Pow(2, Flag(0)) == 8192 && R.Pow(2, Flag(1)) == 4194304 && R.Pow(2, Flag(2)) == 16
    ensures R.Pow(2, Flag(3)) == 65536 && R.Pow(2, Flag(4)) == 2097152 && R.Pow(2, Flag(5)) == 1048576
    ensures R.Pow(2, Flag(6)) == 16384
  {
    assert R.Pow(2, 4) == 16;
    R.PowPlus(2, 4, 4);
    R.PowPlus(2, 8, 4);
    R.PowPlus(2, 8, 8);
    R.PowPlus(2, 16, 4);
    assert R.Pow(2, 1) == 2;
    assert R.Pow(2, 2) == 4;
    R.PowPlus(2, 12, 1);
    R.PowPlus(2, 12, 2);
    R.PowPlus(2, 20, 1);
    R.PowPlus(2, 20, 2);
  }

  /** The number of a single option switches on this one and no other, and so says the same as its own key. */
  lemma OneBitAlone(k: nat, b: nat)
    ensures HasBit(R.Pow(2, k), b) <==> b == k
  {
    hide R.Pow;
    if b < k {
      R.PowPlus(2, k - b - 1, b + 1);
      R.PowPlus(2, 1, b);
      TwoToOne();
      MultipleIsEven(R.Pow(2, k - b - 1), R.Pow(2, b));
    } else if b == k {
      R.DivExact(1, R.Pow(2, k), 0);
    } else {
      PowSmaller(k, b);
      R.DivExact(0, R.Pow(2, b), R.Pow(2, k));
    }
  }

  lemma TwoToOne()
    ensures R.Pow(2, 1) == 2
  {
  }

  lemma MultipleIsEven(q: nat, p: nat)
    requires p > 0
    ensures (q * (2 * p)) / p % 2 == 0
  {
    assert q * (2 * p) == (2 * q) * p + 0;
    R.DivExact(2 * q, p, 0);
  }

  lemma {:induction false} PowSmaller(k: nat, b: nat)
    requires k < b
    ensures R.Pow(2, k) < R.Pow(2, b)
    decreases b
  {
    if k < b - 1 {
      PowSmaller(k, b - 1);
    }
  }

  /** An option switched on by its own key in a new connection, and by its number under OPTIONS: the same options and
      bits. */
  lemma KeyOrNumber(name: string, i: nat, options: string, o: nat)
    requires i < COUNT && RoleAt(i).OptionBit? && Names(name, i)
    requires o < COUNT && RoleAt(o).OptionsMap? && Names(options, o)
    ensures RoleAt(i).k < OPTION_KEYS && R.Pow(2, Flag(RoleAt(i).k)) <= ULONG_MAX
    ensures var byKey := ReadInto(KEYS, ROLES, NEW, OneKey(name, 1));
            var byNumber := ReadInto(KEYS, ROLES, NEW, OneKey(options, R.Pow(2, Flag(RoleAt(i).k))));
            byKey.settings.fields == byNumber.settings.fields && byKey.settings.options == byNumber.settings.options
  {
    hide Flag, RoleAt, ReadInto, OneKey, Names, HasBit, R.Pow;
    NumberStoredFor(NEW, name, i, 1);
    var k := RoleAt(i).k;
    OptionMasks();
    var n := R.Pow(2, Flag(k));
    OptionKeyRead(NEW, name, i, 1);
    OptionsRead(NEW, options, o, n);
    forall b: nat
      ensures HasBit(n, b) <==> b == Flag(k)
    {
      OneBitAlone(Flag(k), b);
    }
  }

  // ---------- Keys with a number ----------

  /** The other keys with a number: 32 bits of it, or its lowest byte, replace the number of the key, and nothing else
      changes. */
  lemma NumberKeyRead(c: Content, name: string, i: nat, n: nat)
    requires Shaped(c.settings) && |c.numbers| == COUNT && i < COUNT && Names(name, i) && n <= ULONG_MAX
    requires RoleAt(i).Unsigned? || RoleAt(i).Byte? || RoleAt(i).ThreeWay? || (RoleAt(i).Versions? && n % 256 != 0)
    ensures ReadInto(KEYS, ROLES, c, OneKey(name, n))
            == c.(numbers := c.numbers[i := if RoleAt(i).Unsigned? then n % 0x1_0000_0000 else n % 256])
  {
    hide RoleAt, UnsignedLong, Number, R.Decimal, T.Text, ReadInto, OneKey, Names;
    NumberStoredFor(c, name, i, n);
    PlainNumber(n);
  }

  /** A list of TLS versions: one bit for each of the three names that stands somewhere in the text. */
  lemma VersionsRead(value: string)
    requires Number(value) % 256 == 0
    ensures NumberFor(Versions, value)
            == (if Mentions(value, "TLSv1.1") then 1 else 0) + (if Mentions(value, "TLSv1.2") then 2 else 0)
               + if Mentions(value, "TLSv1.3") then 4 else 0
  {
    hide Mentions, Number;
    assert VersionsIn(value, 1) == VersionsIn(value, 0) + if Mentions(value, TLS_VERSIONS[0]) then VersionBit(0) else 0;
    assert VersionsIn(value, 2) == VersionsIn(value, 1) + if Mentions(value, TLS_VERSIONS[1]) then VersionBit(1) else 0;
    assert VersionsIn(value, 3) == VersionsIn(value, 2) + if Mentions(value, TLS_VERSIONS[2]) then VersionBit(2) else 0;
  }

  // ---------- Texts ----------

  /** A text under a text key or an alias of it, in any case of letters: it replaces the text of the key, and nothing
      else changes. */
  lemma TextKeyRead(c: Content, name: string, i: nat, v: string)
    requires Shaped(c.settings) && i < COUNT && Names(name, i) && RoleAt(i).Text? && Printable(v)
    ensures ReadInto(KEYS, ROLES, c, name + "=" + Quoted(v)) == c.(texts := c.texts[i := v])
  {
    hide RoleAt, ReadInto, Names, Printable, Quoted, UnsignedLong;
    assert Quoted(v) + "" == Quoted(v);
    QuotedValue(v, "");
    ValueStoredFor(c, name, i, Quoted(v), v);
  }

  /** The aliases of the table and the names of the keys they stand for. */
  lemma AliasesStandFor()
    ensures NameAt(3) == "OPTIONS" && Names("OPTION", 3)
    ensures NameAt(7) == "SERVER" && Names("SERVERNAME", 7)
    ensures NameAt(8) == "UID" && Names("USER", 8)
    ensures NameAt(9) == "PWD" && Names("PASSWORD", 9)
    ensures NameAt(10) == "DATABASE" && Names("DB", 10)
    ensures NameAt(25) == "TLSPEERFP" && Names("SSLFP", 25)
    ensures NameAt(26) == "TLSPEERFPLIST" && Names("SSLFPLIST", 26)
    ensures NameAt(43) == "STREAMRS" && Names("NO_CACHE", 43)
  {
    hide Names;
    NamesItself(4);
    NamesItself(53);
    NamesItself(54);
    NamesItself(55);
    NamesItself(56);
    NamesItself(57);
    NamesItself(58);
    NamesItself(59);
  }

  lemma NamesItself(j: nat)
    requires j < COUNT
    ensures Names(NameAt(j), if AliasAt(j).Some? then AliasAt(j).value else j)
  {
    hide NameAt, AliasAt;
    assert NamesFrom(NameAt(j), if AliasAt(j).Some? then AliasAt(j).value else j, j);
  }

  /** "auto_reconnect=1" switches reconnecting on, "Auto_Reconnect=0" off, in a new connection. */
  lemma ReconnectRead()
    ensures RoleAt(14) == OptionBit(1)
    ensures ReadInto(KEYS, ROLES, NEW, OneKey("auto_reconnect", 1)).settings.fields[1]
    ensures !ReadInto(KEYS, ROLES, NEW, OneKey("Auto_Reconnect", 0)).settings.fields[1]
  {
    hide ReadInto, OneKey, Names;
    ReconnectNamed();
    OptionKeyRead(NEW, "auto_reconnect", 14, 1);
    OptionKeyRead(NEW, "Auto_Reconnect", 14, 0);
  }

  lemma ReconnectNamed()
    ensures Names("auto_reconnect", 14) && Names("Auto_Reconnect", 14)
  {
    hide SameName;
    ReconnectInSmall();
    ReconnectInBoth();
    assert NamesFrom("auto_reconnect", 14, 14);
    assert NamesFrom("Auto_Reconnect", 14, 14);
  }

  lemma ReconnectInSmall()
    ensures NameAt(14) == "AUTO_RECONNECT" && SameName("AUTO_RECONNECT", "auto_reconnect")
  {
  }

  lemma ReconnectInBoth()
    ensures SameName("AUTO_RECONNECT", "Auto_Reconnect")
  {
  }
}
