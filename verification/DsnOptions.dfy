/** The OPTIONS bitmap of a connection and the fields that repeat some of its bits, with the pair of switches
    TCPIP and NamedPipe. */
module DsnOptions {
  import opened Common

  /** The keys that have a bit in OPTIONS, by their place in the key table: NamedPipe, AUTO_RECONNECT, NO_PROMPT,
      USE_MYCNF, FORWARDONLY, STREAMRS, NOBIGINT. */
  const OPTION_KEYS := 7
  const NAMED_PIPE := 0

  /** The number of the bit: the flags are powers of two, up to MADB_OPT_FLAG_AUTO_RECONNECT. */
  function Flag(k: nat): (bit: nat)
    requires k < OPTION_KEYS
    ensures bit < 32
  {
    if k == NAMED_PIPE then 13
    else if k == 1 then 22
    else if k == 2 then 4
    else if k == 3 then 16
    else if k == 4 then 21
    else if k == 5 then 20
    else 14
  }

  /** The numbers of the bits that are set in an int. */
  type Bits = set<nat>

  datatype Settings = Settings(options: Bits, tcpIp: bool, fields: seq<bool>)

  /** What a connection starts with. */
  const FRESH := Settings({}, false, [false, false, false, false, false, false, false])

  /** What one key of a connection string or a data source asks for. */
  datatype Assign =
    | Bit(k: nat, on: bool)
    | TcpIp(on: bool)
    | Options(bits: Bits)
    | Other

  predicate Known(a: Assign) { a.Bit? ==> a.k < OPTION_KEYS }

  predicate Shaped(s: Settings) { |s.fields| == OPTION_KEYS }

  function SetOption(s: Settings, k: nat, on: bool): (e: Settings)
    requires Shaped(s) && k < OPTION_KEYS
    ensures Shaped(e)
  {
    Settings(if on then s.options + {Flag(k)} else s.options - {Flag(k)}, s.tcpIp, s.fields[k := on])
  }

  /** NamedPipe and TCPIP are switched against each other. */
  function SwitchFromPipe(s: Settings): (e: Settings)
    requires Shaped(s)
    ensures Shaped(e)
  {
    s.(tcpIp := !s.fields[NAMED_PIPE])
  }

  function SwitchFromTcpIp(s: Settings): Settings
    requires Shaped(s)
  {
    SetOption(s, NAMED_PIPE, !s.tcpIp)
  }

  /** A field is set from its bit. */
  function FromBit(s: Settings, k: nat): (e: Settings)
    requires Shaped(s) && k < OPTION_KEYS
    ensures Shaped(e)
  {
    var e := s.(fields := s.fields[k := Flag(k) in s.options]);
    if k == NAMED_PIPE then SwitchFromPipe(e) else e
  }

  function FromBits(s: Settings, k: nat): (e: Settings)
    requires Shaped(s) && k <= OPTION_KEYS
    ensures Shaped(e)
  {
    if k == 0 then s else FromBit(FromBits(s, k - 1), k - 1)
  }

  /** One value stored; an existing one is kept unless `overwrite` says otherwise. */
  function Stored(s: Settings, a: Assign, overwrite: bool): (e: Settings)
    requires Shaped(s) && Known(a)
    ensures Shaped(e)
  {
    match a
    case Bit(k, on) =>
      var e := if s.fields[k] && !overwrite then s else SetOption(s, k, on);
      if k == NAMED_PIPE then SwitchFromPipe(e) else e
    case TcpIp(on) => SwitchFromTcpIp(if s.tcpIp && !overwrite then s else s.(tcpIp := on))
    case Options(bits) => if s.options != {} && !overwrite then s else s.(options := bits)
    case Other => s
  }

  /** One key of a connection string: OPTIONS is followed by setting every field from its bit. */
  function Applied(s: Settings, a: Assign): (e: Settings)
    requires Shaped(s) && Known(a)
    ensures Shaped(e)
  {
    var e := Stored(s, a, true);
    if a.Options? then FromBits(e, OPTION_KEYS) else e
  }

  predicate AllKnown(assigns: seq<Assign>) { forall i :: 0 <= i < |assigns| ==> Known(assigns[i]) }

  function AppliedAll(s: Settings, assigns: seq<Assign>): (e: Settings)
    requires Shaped(s) && AllKnown(assigns)
    ensures Shaped(e)
  {
    if assigns == [] then s else Applied(AppliedAll(s, assigns[..|assigns| - 1]), assigns[|assigns| - 1])
  }

  // ---------- What is kept ----------

  /** Every field says what its bit says. */
  predicate FieldsAgree(s: Settings) {
    Shaped(s) && forall k :: 0 <= k < OPTION_KEYS ==> (s.fields[k] <==> Flag(k) in s.options)
  }

  predicate NotBoth(s: Settings) { Shaped(s) && !(s.tcpIp && s.fields[NAMED_PIPE]) }

  predicate ExactlyOne(s: Settings) { Shaped(s) && s.tcpIp != s.fields[NAMED_PIPE] }

  predicate Decides(a: Assign) { a.TcpIp? || a.Options? || (a.Bit? && a.k == NAMED_PIPE) }

  lemma FlagsDistinct(j: nat, k: nat)
    requires j < OPTION_KEYS && k < OPTION_KEYS && j != k
    ensures Flag(j) != Flag(k)
  {
  }

  lemma SetOptionAgrees(s: Settings, k: nat, on: bool)
    requires FieldsAgree(s) && k < OPTION_KEYS
    ensures FieldsAgree(SetOption(s, k, on))
  {
    hide Flag;
    forall j | 0 <= j < OPTION_KEYS
      ensures SetOption(s, k, on).fields[j] <==> Flag(j) in SetOption(s, k, on).options
    {
      if j != k {
        FlagsDistinct(j, k);
      }
    }
  }

  lemma {:induction false} FromBitsAgree(s: Settings, n: nat)
    requires Shaped(s) && n <= OPTION_KEYS
    ensures FromBits(s, n).options == s.options
    ensures forall k :: 0 <= k < n ==> (FromBits(s, n).fields[k] <==> Flag(k) in s.options)
    ensures n > 0 ==> ExactlyOne(FromBits(s, n))
  {
    hide Flag;
    if n > 0 {
      FromBitsAgree(s, n - 1);
    }
  }

  /** One key keeps the fields and their bits in step; the two switches are set apart by the keys that decide
      about them and left alone by the others. */
  lemma AppliedAgrees(s: Settings, a: Assign)
    requires Shaped(s) && FieldsAgree(s) && Known(a)
    ensures FieldsAgree(Applied(s, a))
    ensures Decides(a) ==> ExactlyOne(Applied(s, a))
    ensures !Decides(a) ==> SameSwitches(s, Applied(s, a))
  {
    hide Flag, FromBits, SetOption, FieldsAgree;
    match a
    case Bit(k, on) => SetOptionAgrees(s, k, on); SetOptionFields(s, k, on); SwitchAgrees(SetOption(s, k, on));
    case TcpIp(on) =>
      SameAgrees(s, s.(tcpIp := on));
      SetOptionAgrees(s.(tcpIp := on), NAMED_PIPE, !on);
      SetOptionFields(s.(tcpIp := on), NAMED_PIPE, !on);
    case Options(bits) =>
      FromBitsAgree(s.(options := bits), OPTION_KEYS);
      BitsAgree(FromBits(s.(options := bits), OPTION_KEYS));
    case Other =>
  }

  predicate SameSwitches(s: Settings, e: Settings)
    requires Shaped(s)
  {
    Shaped(e) && e.tcpIp == s.tcpIp && e.fields[NAMED_PIPE] == s.fields[NAMED_PIPE]
  }

  lemma SetOptionFields(s: Settings, k: nat, on: bool)
    requires Shaped(s) && k < OPTION_KEYS
    ensures SetOption(s, k, on).tcpIp == s.tcpIp && SetOption(s, k, on).fields == s.fields[k := on]
  {
  }

  lemma SameAgrees(s: Settings, e: Settings)
    requires FieldsAgree(s) && e.options == s.options && e.fields == s.fields
    ensures FieldsAgree(e)
  {
  }

  lemma SwitchAgrees(s: Settings)
    requires FieldsAgree(s)
    ensures FieldsAgree(SwitchFromPipe(s)) && ExactlyOne(SwitchFromPipe(s))
  {
  }

  lemma BitsAgree(s: Settings)
    requires Shaped(s) && forall k :: 0 <= k < OPTION_KEYS ==> (s.fields[k] <==> Flag(k) in s.options)
    ensures FieldsAgree(s)
  {
  }

  lemma FreshAgrees()
    ensures FieldsAgree(FRESH) && NotBoth(FRESH)
  {
  }

  predicate SomeDecides(assigns: seq<Assign>) { exists i :: 0 <= i < |assigns| && Decides(assigns[i]) }

  lemma {:induction false} AppliedAllAgrees(s: Settings, assigns: seq<Assign>)
    requires Shaped(s) && FieldsAgree(s) && AllKnown(assigns)
    ensures FieldsAgree(AppliedAll(s, assigns))
    ensures if SomeDecides(assigns) then ExactlyOne(AppliedAll(s, assigns)) else SameSwitches(s, AppliedAll(s, assigns))
    decreases |assigns|
  {
    hide Applied, FieldsAgree;
    if assigns != [] {
      var before, a := assigns[..|assigns| - 1], assigns[|assigns| - 1];
      AppliedAllAgrees(s, before);
      AppliedAgrees(AppliedAll(s, before), a);
      assert SomeDecides(assigns) <==> SomeDecides(before) || Decides(a) by {
        assert forall i :: 0 <= i < |before| ==> before[i] == assigns[i];
      }
    }
  }

  /** After every key of any connection string, in any order: each field is set exactly when its bit is, TCPIP and
      NamedPipe are never both set, and exactly one of them is set if and only if TCPIP, NamedPipe or OPTIONS has
      been seen. */
  lemma AlwaysAgree(assigns: seq<Assign>)
    requires AllKnown(assigns)
    ensures FieldsAgree(AppliedAll(FRESH, assigns)) && NotBoth(AppliedAll(FRESH, assigns))
    ensures ExactlyOne(AppliedAll(FRESH, assigns)) <==> SomeDecides(assigns)
  {
    FreshAgrees();
    AppliedAllAgrees(FRESH, assigns);
  }

  // ---------- Printing the settings ----------

  /** The keys that are printed: OPTIONS unless it is zero, and TCPIP if it is set; the fields that have a bit are
      not printed. */
  function Printed(s: Settings): seq<Assign> {
    (if s.options != {} then [Options(s.options)] else []) + (if s.tcpIp then [TcpIp(true)] else [])
  }

  /** OPTIONS brings back every field that has a bit, and sets TCPIP against NamedPipe. */
  lemma OptionsRestore(s: Settings)
    requires FieldsAgree(s)
    ensures Applied(FRESH, Options(s.options)) == s.(tcpIp := !s.fields[NAMED_PIPE])
  {
    hide Flag, FromBits;
    var bits := FRESH.(options := s.options);
    FromBitsAgree(bits, OPTION_KEYS);
    assert FromBits(bits, OPTION_KEYS).fields == s.fields;
  }

  lemma TcpIpRestores(s: Settings, t: Settings)
    requires FieldsAgree(t) && !t.fields[NAMED_PIPE] && s == t.(tcpIp := true)
    ensures Applied(t, TcpIp(true)) == s
  {
    hide Flag;
    assert t.fields[NAMED_PIPE := false] == t.fields;
    assert t.options - {Flag(NAMED_PIPE)} == t.options;
  }

  lemma AppliedOne(s: Settings, a: Assign)
    requires Shaped(s) && Known(a)
    ensures AppliedAll(s, [a]) == Applied(s, a)
  {
    assert [a][..0] == [];
  }

  lemma AppliedTwo(s: Settings, a: Assign, b: Assign)
    requires Shaped(s) && Known(a) && Known(b)
    ensures AppliedAll(s, [a, b]) == Applied(Applied(s, a), b)
  {
    AppliedOne(s, a);
    assert [a, b][..1] == [a];
  }

  /** The settings read from what was printed are the same ones, unless neither switch is set and some other
      option is: OPTIONS then sets TCPIP. */
  lemma SettingsRoundTrip(s: Settings)
    requires FieldsAgree(s) && NotBoth(s)
    ensures AllKnown(Printed(s))
    ensures AppliedAll(FRESH, Printed(s)) == s <==> s.options == {} || ExactlyOne(s)
  {
    hide Flag, Applied, AppliedAll;
    FreshAgrees();
    if s.options == {} {
      NothingSet(s);
      if s.tcpIp {
        assert Printed(s) == [TcpIp(true)];
        AppliedOne(FRESH, TcpIp(true));
        TcpIpRestores(s, FRESH);
      } else {
        assert Printed(s) == [];
        NothingApplied(FRESH);
      }
    } else {
      OptionsRestore(s);
      AppliedOne(FRESH, Options(s.options));
      if s.tcpIp {
        assert Printed(s) == [Options(s.options), TcpIp(true)];
        AppliedTwo(FRESH, Options(s.options), TcpIp(true));
        TcpIpRestores(s, s);
      } else {
        assert Printed(s) == [Options(s.options)];
      }
    }
  }

  lemma NothingSet(s: Settings)
    requires FieldsAgree(s) && s.options == {}
    ensures s.fields == FRESH.fields
  {
  }

  lemma NothingApplied(s: Settings)
    requires Shaped(s)
    ensures AppliedAll(s, []) == s
  {
  }

  // ---------- Reading a data source ----------

  /** The entries of a data source that matter here, as far as they are there. */
  datatype Source = Source(
    options: Option<Bits>, option: Option<Bits>, bits: seq<Option<bool>>, tcpIp: Option<bool>, noCache: Option<bool>)

  predicate Complete(f: Source) { |f.bits| == OPTION_KEYS }

  /** The key of an option: stored if it is there, otherwise set from its bit without switching anything. */
  function ReadBit(s: Settings, f: Source, k: nat, overwrite: bool): (e: Settings)
    requires Shaped(s) && Complete(f) && k < OPTION_KEYS
    ensures Shaped(e)
  {
    match f.bits[k]
    case Some(on) => Stored(s, Bit(k, on), overwrite)
    case None => s.(fields := s.fields[k := Flag(k) in s.options])
  }

  function ReadBits(s: Settings, f: Source, n: nat, overwrite: bool): (e: Settings)
    requires Shaped(s) && Complete(f) && 1 <= n <= OPTION_KEYS
    ensures Shaped(e)
  {
    if n == 1 then s else ReadBit(ReadBits(s, f, n - 1, overwrite), f, n - 1, overwrite)
  }

  function ReadOptions(s: Settings, o: Option<Bits>, overwrite: bool): (e: Settings)
    requires Shaped(s)
    ensures Shaped(e)
  {
    if o.Some? then Stored(s, Options(o.value), overwrite) else s
  }

  /** All entries, in the order of the key table. */
  function ReadSource(s: Settings, f: Source, overwrite: bool): (e: Settings)
    requires Shaped(s) && Complete(f)
    ensures Shaped(e)
  {
    var o := ReadOptions(ReadOptions(s, f.options, overwrite), f.option, overwrite);
    var p := ReadBit(o, f, NAMED_PIPE, overwrite);
    var t := if f.tcpIp.Some? then Stored(p, TcpIp(f.tcpIp.value), overwrite) else p;
    var b := ReadBits(t, f, OPTION_KEYS, overwrite);
    if f.noCache.Some? then Stored(b, Bit(5, f.noCache.value), overwrite) else b
  }

  predicate AgreesUpTo(s: Settings, n: nat) {
    Shaped(s) && forall k :: 0 <= k < n && k < OPTION_KEYS ==> (s.fields[k] <==> Flag(k) in s.options)
  }

  lemma StoredAgrees(s: Settings, k: nat, on: bool, overwrite: bool, n: nat)
    requires AgreesUpTo(s, n) && k < OPTION_KEYS && (overwrite || k < n)
    ensures AgreesUpTo(Stored(s, Bit(k, on), overwrite), if k == n then n + 1 else n)
    ensures k != NAMED_PIPE ==> SameSwitches(s, Stored(s, Bit(k, on), overwrite))
  {
    hide Flag;
    forall j | 0 <= j < OPTION_KEYS && j != k
      ensures Flag(j) != Flag(k)
    {
      FlagsDistinct(j, k);
    }
  }

  lemma ReadBitAgrees(s: Settings, f: Source, n: nat)
    requires AgreesUpTo(s, n) && Complete(f) && n < OPTION_KEYS
    ensures AgreesUpTo(ReadBit(s, f, n, true), n + 1)
    ensures n != NAMED_PIPE ==> SameSwitches(s, ReadBit(s, f, n, true))
  {
    hide Flag;
    if f.bits[n].Some? {
      StoredAgrees(s, n, f.bits[n].value, true, n);
    }
  }

  lemma {:induction false} ReadBitsAgree(s: Settings, f: Source, n: nat)
    requires Shaped(s) && AgreesUpTo(s, 1) && Complete(f) && 1 <= n <= OPTION_KEYS
    ensures AgreesUpTo(ReadBits(s, f, n, true), n) && SameSwitches(s, ReadBits(s, f, n, true))
  {
    hide ReadBit, AgreesUpTo;
    if n > 1 {
      ReadBitsAgree(s, f, n - 1);
      ReadBitAgrees(ReadBits(s, f, n - 1, true), f, n - 1);
    }
  }

  /** The bits OPTIONS has after its own entries. */
  function SourceBits(s: Settings, f: Source): Bits {
    if f.option.Some? then f.option.value else if f.options.Some? then f.options.value else s.options
  }

  /** A data source leaves the fields in step with their bits, but it can leave both switches set: exactly when
      TCPIP was set before, the source has no entry for either of them, and its OPTIONS have the bit of NamedPipe. */
  lemma ReadSourceAgrees(s: Settings, f: Source)
    requires Shaped(s) && Complete(f)
    ensures FieldsAgree(ReadSource(s, f, true))
    ensures NotBoth(ReadSource(s, f, true))
            <==> !(s.tcpIp && f.tcpIp.None? && f.bits[NAMED_PIPE].None? && Flag(NAMED_PIPE) in SourceBits(s, f))
  {
    hide ReadBits, Flag;
    var o := ReadOptions(ReadOptions(s, f.options, true), f.option, true);
    assert o == s.(options := SourceBits(s, f));
    var p := ReadBit(o, f, NAMED_PIPE, true);
    ReadBitAgrees(o, f, NAMED_PIPE);
    var t := if f.tcpIp.Some? then Stored(p, TcpIp(f.tcpIp.value), true) else p;
    assert AgreesUpTo(t, 1);
    ReadBitsAgree(t, f, OPTION_KEYS);
    var b := ReadBits(t, f, OPTION_KEYS, true);
    if f.noCache.Some? {
      StoredAgrees(b, 5, f.noCache.value, true, OPTION_KEYS);
    }
  }

  lemma {:induction false} ReadBitsFields(s: Settings, f: Source, n: nat, overwrite: bool, k: nat)
    requires Shaped(s) && Complete(f) && 1 <= n <= OPTION_KEYS && k < OPTION_KEYS && f.bits[k].Some?
    ensures ReadBits(s, f, n, overwrite).fields[k]
            == if 1 <= k < n then f.bits[k].value || (s.fields[k] && !overwrite) else s.fields[k]
    decreases n
  {
    hide Flag;
    if n > 1 {
      ReadBitsFields(s, f, n - 1, overwrite, k);
      ReadBitFields(ReadBits(s, f, n - 1, overwrite), f, n - 1, overwrite, k);
    }
  }

  lemma ReadBitFields(s: Settings, f: Source, n: nat, overwrite: bool, k: nat)
    requires Shaped(s) && Complete(f) && n < OPTION_KEYS && k < OPTION_KEYS && f.bits[k].Some?
    ensures ReadBit(s, f, n, overwrite).fields[k]
            == if k == n then f.bits[k].value || (s.fields[k] && !overwrite) else s.fields[k]
  {
    hide Flag;
  }

  /** An option other than NamedPipe for which the data source has one entry: with overwriting it becomes what the entry
      says; without, it stays on if it was on before, and becomes what the entry says otherwise. */
  lemma EntryCounts(s: Settings, f: Source, k: nat, overwrite: bool)
    requires Shaped(s) && Complete(f) && 0 < k < OPTION_KEYS && f.bits[k].Some? && (k == 5 ==> f.noCache.None?)
    ensures ReadSource(s, f, overwrite).fields[k] <==> f.bits[k].value || (s.fields[k] && !overwrite)
  {
    hide ReadBits, ReadBit, Flag;
    var o := ReadOptions(ReadOptions(s, f.options, overwrite), f.option, overwrite);
    assert o.fields == s.fields;
    var p := ReadBit(o, f, NAMED_PIPE, overwrite);
    ReadBitFields(o, f, NAMED_PIPE, overwrite, k);
    var t := if f.tcpIp.Some? then Stored(p, TcpIp(f.tcpIp.value), overwrite) else p;
    assert t.fields[k] == p.fields[k];
    ReadBitsFields(t, f, OPTION_KEYS, overwrite, k);
  }

  /** A connection string that names a data source: parsed, then the data source read, then parsed again. However
      the source leaves the switches, they are apart at the end. */
  lemma ReadConnStringAgrees(assigns: seq<Assign>, f: Source)
    requires AllKnown(assigns) && Complete(f)
    ensures var e := AppliedAll(ReadSource(AppliedAll(FRESH, assigns), f, true), assigns);
            FieldsAgree(e) && NotBoth(e)
  {
    hide Applied, ReadSource, FieldsAgree;
    AlwaysAgree(assigns);
    var s := AppliedAll(FRESH, assigns);
    FreshAgrees();
    AppliedAllAgrees(FRESH, assigns);
    ReadSourceAgrees(s, f);
    AppliedAllAgrees(ReadSource(s, f, true), assigns);
  }

  /** AUTO_RECONNECT alone: printed as OPTIONS, it comes back with TCPIP. */
  lemma ReconnectBringsTcpIp()
    ensures var s := AppliedAll(FRESH, [Bit(1, true)]);
            && FieldsAgree(s) && NotBoth(s) && !s.tcpIp
            && AllKnown(Printed(s)) && AppliedAll(FRESH, Printed(s)) != s && AppliedAll(FRESH, Printed(s)).tcpIp
  {
    hide FromBits, AppliedAll;
    var s := AppliedAll(FRESH, [Bit(1, true)]);
    AlwaysAgree([Bit(1, true)]);
    AppliedOne(FRESH, Bit(1, true));
    SettingsRoundTrip(s);
    OptionsRestore(s);
    assert Printed(s) == [Options(s.options)];
    AppliedOne(FRESH, Options(s.options));
  }

  const NO_ENTRIES := [None, None, None, None, None, None, None]

  /** TCPIP=1 in a connection string, OPTIONS=8192 in the data source: both switches are set after it has been read. */
  lemma SourceSetsBoth()
    ensures var f := Source(Some({13}), None, NO_ENTRIES, None, None);
            var s := AppliedAll(FRESH, [TcpIp(true)]);
            && NotBoth(s) && Complete(f) && !NotBoth(ReadSource(s, f, true))
  {
    hide ReadSource, AppliedAll;
    var f := Source(Some({13}), None, NO_ENTRIES, None, None);
    AppliedOne(FRESH, TcpIp(true));
    ReadSourceAgrees(AppliedAll(FRESH, [TcpIp(true)]), f);
  }
}
