/** The parser of connection strings as it runs: over a copy of the text that it cuts up with NUL characters, storing
    each value in the connection settings as soon as it has it. */
module DsnParser {
  import opened Common
  import opened ConnString
  import opened DsnOptions

  const NUL := '\0'

  // ---------- Strings in the buffer ----------

  /** From `from` to its end the buffer still holds the text `t`, closed with a NUL. */
  ghost predicate Holds(b: array<char>, from: nat, t: string)
    reads b
  {
    from + |t| + 1 == b.Length && b[from..from + |t|] == t && b[from + |t|] == NUL && NUL !in t
  }

  lemma HoldsFrom(b: array<char>, from: nat, t: string, k: nat)
    requires Holds(b, from, t) && k <= |t|
    ensures Holds(b, from + k, t[k..])
  {
    assert forall i :: 0 <= i < |t[k..]| ==> t[k..][i] == t[k + i];
  }

  lemma HeldPrefix(b: array<char>, from: nat, t: string, k: nat)
    requires Holds(b, from, t) && k <= |t|
    ensures from + k < b.Length && b[from..from + k] == t[..k]
  {
    assert forall i :: 0 <= i < k ==> b[from..from + |t|][i] == t[i];
  }

  lemma HeldAt(b: array<char>, from: nat, t: string, k: nat)
    requires Holds(b, from, t) && k <= |t|
    ensures from + k < b.Length && b[from + k] == if k < |t| then t[k] else NUL
  {
    assert k < |t| ==> b[from..from + |t|][k] == t[k];
  }

  /** strchr: the place of the character, -1 if it does not come before the NUL. */
  method Find(b: array<char>, from: nat, c: char, ghost t: string) returns (k: int)
    requires Holds(b, from, t) && c != NUL
    ensures k == match IndexOf(t, c) case None => -1 case Some(j) => from + j
  {
    var i := 0;
    while b[from + i] != NUL
      invariant i <= |t| && c !in t[..i]
      decreases |t| - i
    {
      assert b[from + i] == t[i];
      if b[from + i] == c {
        assert t == t[..i] + [c] + t[i + 1..];
        IndexOfIn(t[..i], c, t[i + 1..]);
        return from + i;
      }
      i := i + 1;
    }
    assert t[..i] == t;
    IndexOfNone(t, c);
    return -1;
  }

  /** ltrim: where the text goes on after white space. */
  method SkipSpace(b: array<char>, from: nat, ghost t: string) returns (k: nat)
    requires Holds(b, from, t)
    ensures k <= |t| && LeftTrimmed(t) == t[k..]
  {
    k := 0;
    while IsSpace(b[from + k])
      invariant k <= |t| && LeftTrimmed(t) == LeftTrimmed(t[k..])
      decreases |t| - k
    {
      assert b[from + k] == t[k];
      assert t[k..][1..] == t[k + 1..];
      k := k + 1;
    }
  }

  /** trim: the string from `from` to the NUL at `to` is trimmed where it stands. */
  method Trim(b: array<char>, from: nat, to: nat) returns (start: nat, end: nat)
    requires from <= to < b.Length && b[to] == NUL && NUL !in b[from..to]
    modifies b
    ensures from <= start <= end <= to && b[start..end] == Trimmed(old(b[from..to])) && b[end] == NUL
    ensures forall i :: 0 <= i < b.Length && !(from <= i < to) ==> b[i] == old(b[i])
  {
    ghost var t := b[from..to];
    start := from;
    while start < to && IsSpace(b[start])
      invariant from <= start <= to && LeftTrimmed(t) == LeftTrimmed(b[start..to])
    {
      assert b[start..to][1..] == b[start + 1..to];
      start := start + 1;
    }
    ghost var s := b[start..to];
    assert LeftTrimmed(t) == s;
    end := to;
    while end > start && IsSpace(b[end - 1])
      invariant start <= end <= to && RightTrimmed(s) == RightTrimmed(b[start..end]) && b[end] == NUL
      invariant forall i :: 0 <= i < b.Length && !(end <= i < to) ==> b[i] == old(b[i])
    {
      assert b[start..end][..end - start - 1] == b[start..end - 1];
      ghost var before := b[start..end - 1];
      end := end - 1;
      b[end] := NUL;
      assert b[start..end] == before;
    }
  }

  /** Cuts the buffer at `p`, and trims the part before. */
  method CutAndTrim(b: array<char>, from: nat, p: nat, ghost rest: string) returns (start: nat, end: nat)
    requires from <= p < b.Length && NUL !in b[from..p] && Holds(b, p + 1, rest)
    modifies b
    ensures start <= end < b.Length && b[start..end] == Trimmed(old(b[from..p])) && Holds(b, p + 1, rest)
  {
    hide Trimmed;
    b[p] := NUL;
    assert b[from..p] == old(b[from..p]);
    start, end := Trim(b, from, p);
    HoldsStill(b, p + 1, rest);
  }

  lemma HoldsStill(b: array<char>, from: nat, t: string)
    requires from + |t| + 1 == b.Length && NUL !in t && b[from + |t|] == NUL
    requires forall i :: 0 <= i < |t| ==> b[from + i] == t[i]
    ensures Holds(b, from, t)
  {
  }

  lemma UnbracedHere(t: string, j: nat)
    requires IndexOf(t, '}') == Some(j)
    ensures if j + 1 < |t| && t[j + 1] == '}'
            then Unbraced(t) == (t[..j] + "}" + Unbraced(t[j + 2..]).0, Unbraced(t[j + 2..]).1)
            else Unbraced(t) == (t[..j], Some(t[j + 1..]))
  {
    hide IndexOf;
  }

  lemma UnbracedNone(t: string)
    requires IndexOf(t, '}').None?
    ensures Unbraced(t) == ("", None)
  {
  }

  /** One turn of the copying loop. */
  lemma CopiedOn(had: string, s: string, j: nat)
    requires IndexOf(s, '}') == Some(j)
    ensures if j + 1 < |s| && s[j + 1] == '}'
            then had + Unbraced(s).0 == (had + (s[..j] + "}")) + Unbraced(s[j + 2..]).0
                 && Unbraced(s).1 == Unbraced(s[j + 2..]).1
            else had + Unbraced(s).0 == had + (s[..j] + "") && Unbraced(s).1 == Some(s[j + 1..])
  {
    hide IndexOf, Unbraced;
    UnbracedHere(s, j);
    if j + 1 < |s| && s[j + 1] == '}' {
      Regrouped(had, s[..j], "}", Unbraced(s[j + 2..]).0);
    } else {
      Unchanged(s[..j]);
    }
  }

  lemma Regrouped(a: string, b: string, c: string, d: string)
    ensures a + (b + c + d) == (a + (b + c)) + d
  {
  }

  lemma Unchanged(s: string)
    ensures s + "" == s
  {
  }

  /** What has been written to ValueBuf so far: the text, and a NUL behind it. */
  ghost predicate Written(buf: array<char>, text: string)
    reads buf
  {
    |text| < buf.Length && buf[..|text|] == text && buf[|text|] == NUL
  }

  /** Appends to ValueBuf, if everything before went into it; `fits` says whether the new text does. */
  method Append(buf: array<char>, ghost text: string, at: nat, more: string, fitting: bool) returns (fits: bool)
    requires at == |text| && (fitting ==> Written(buf, text))
    modifies buf
    ensures fits <==> fitting && at + |more| < buf.Length
    ensures fits ==> Written(buf, text + more)
  {
    fits := fitting && at + |more| < buf.Length;
    if fits {
      forall i | 0 <= i < |more| { buf[at + i] := more[i]; }
      assert buf[..at + |more|] == buf[..at] + buf[at..at + |more|];
      assert buf[at..at + |more|] == more;
      buf[at + |more|] := NUL;
    }
  }

  /** The part of a value up to the next closing brace, and that brace if it is doubled. */
  method CopySegment(b: array<char>, prev: nat, p: nat, buf: array<char>, ghost s: string, content: string,
      fitting: bool)
    returns (grown: string, again: bool, inside: bool)
    requires Holds(b, prev, s) && prev <= p && IndexOf(s, '}') == Some(p - prev) && buf != b
    requires (fitting <==> |content| < buf.Length) && (fitting ==> Written(buf, content))
    modifies buf
    ensures var j := p - prev;
            && (again <==> j + 1 < |s| && s[j + 1] == '}')
            && grown == content + (s[..j] + if again then "}" else "")
            && (if again then Holds(b, p + 2, s[j + 2..]) else p + 1 < b.Length && Holds(b, p + 1, s[j + 1..]))
    ensures (inside <==> |grown| < buf.Length) && (inside ==> Written(buf, grown))
  {
    hide IndexOf, Holds, Written;
    ghost var j := p - prev;
    HeldPrefix(b, prev, s, j);
    HeldAt(b, prev, s, j + 1);
    HoldsFrom(b, prev, s, j + 1);
    again := b[p + 1] == '}';
    if again {
      HoldsFrom(b, prev, s, j + 2);
    }
    var copied := b[prev..p] + if again then "}" else "";
    inside := Append(buf, content, |content|, copied, fitting);
    grown := content + copied;
  }

  /** Copies the value in braces to ValueBuf, and returns the place after the closing brace, -1 if there is none. No
      write is outside the buffer if and only if the value and a NUL fit it. */
  method Unbrace(b: array<char>, from: nat, buf: array<char>, ghost t: string)
    returns (content: string, p: int, inside: bool)
    requires Holds(b, from, t) && buf != b
    modifies buf
    ensures content == Unbraced(t).0
    ensures inside <==> |content| < buf.Length
    ensures inside ==> Written(buf, content)
    ensures match Unbraced(t).1
            case None => p == -1
            case Some(rest) => from < p < b.Length && Holds(b, p, rest)
  {
    hide Unbraced, IndexOf, Holds, Written;
    var prev: nat := from;
    HeldAt(b, from, t, |t|);
    content := "";
    ghost var s := t;
    p := Find(b, prev, '}', s);
    inside := StartValue(buf);
    assert "" + Unbraced(t).0 == Unbraced(t).0;
    while p >= 0
      invariant Holds(b, prev, s) && from <= prev
      invariant p == match IndexOf(s, '}') case None => -1 case Some(j) => prev + j
      invariant content + Unbraced(s).0 == Unbraced(t).0 && Unbraced(s).1 == Unbraced(t).1
      invariant (inside <==> |content| < buf.Length) && (inside ==> Written(buf, content))
      decreases |s|
    {
      ghost var j := p - prev;
      CopiedOn(content, s, j);
      var again;
      content, again, inside := CopySegment(b, prev, p, buf, s, content, inside);
      if !again {
        p := p + 1;
        return;
      }
      prev, s := p + 2, s[j + 2..];
      p := Find(b, prev, '}', s);
    }
    UnbracedNone(s);
    assert content + "" == content;
  }

  method StartValue(buf: array<char>) returns (inside: bool)
    modifies buf
    ensures inside <==> 0 < buf.Length
    ensures inside ==> Written(buf, "")
  {
    inside := 0 < buf.Length;
    if inside {
      buf[0] := NUL;
    }
  }

  /** The next key, or nothing if there is none: the end of a value is `b.Length` once nothing follows it. */
  ghost predicate GoesOn(b: array<char>, next: int, rest: string)
    reads b
  {
    if next == b.Length then rest == "" else 0 <= next && Holds(b, next, rest)
  }

  method TakeBraced(b: array<char>, from: nat, buf: array<char>, ghost s: string)
    returns (value: string, next: int, inside: bool)
    requires Holds(b, from, s) && s != "" && s[0] == '{' && buf != b
    modifies buf
    ensures value == Trimmed(Unbraced(s[1..]).0)
    ensures inside <==> |Unbraced(s[1..]).0| < buf.Length
    ensures match Unbraced(s[1..]).1
            case None => next == -1
            case Some(rest) => from <= next && GoesOn(b, next, if rest == "" then "" else rest[1..])
  {
    hide Unbraced, Trimmed;
    HoldsFrom(b, from, s, 1);
    var content, p;
    content, p, inside := Unbrace(b, from + 1, buf, s[1..]);
    value := Trimmed(content);
    if p == -1 {
      return value, -1, inside;
    }
    ghost var rest := Unbraced(s[1..]).1.value;
    if p + 1 < b.Length {
      HoldsFrom(b, p, rest, 1);
    }
    return value, p + 1, inside;
  }

  method TakePlain(b: array<char>, from: nat, ghost s: string) returns (value: string, next: int)
    requires Holds(b, from, s)
    modifies b
    ensures match IndexOf(s, ';')
            case None => next == -1 && value == Trimmed(s)
            case Some(j) => value == Trimmed(s[..j]) && from <= next && next < b.Length && Holds(b, next, s[j + 1..])
  {
    hide Trimmed, IndexOf;
    var p := Find(b, from, ';', s);
    if p == -1 {
      assert NUL !in b[from..b.Length - 1];
      var start, end := Trim(b, from, b.Length - 1);
      return b[start..end], -1;
    }
    ghost var j := p - from;
    HeldPrefix(b, from, s, j);
    HoldsFrom(b, from, s, j + 1);
    var start, end := CutAndTrim(b, from, p, s[j + 1..]);
    return b[start..end], p + 1;
  }

  /** The characters that the value behind '=' takes up in ValueBuf, with the NUL. */
  function Room(raw: string): nat {
    var s := LeftTrimmed(raw);
    if s != "" && s[0] == '{' then |Unbraced(s[1..]).0| + 1 else 0
  }

  /** The value that starts at `from`, and where the next key is, -1 if the text ends with the value. */
  method TakeValue(b: array<char>, from: nat, buf: array<char>, ghost raw: string)
    returns (value: string, next: int, inside: bool)
    requires Holds(b, from, raw) && buf != b
    modifies b, buf
    ensures value == ValueOf(raw).0
    ensures inside <==> Room(raw) <= buf.Length
    ensures match ValueOf(raw).1
            case None => next == -1
            case Some(rest) => from <= next && GoesOn(b, next, rest)
  {
    hide Unbraced, Trimmed, IndexOf;
    var k := SkipSpace(b, from, raw);
    HoldsFrom(b, from, raw, k);
    assert raw[k..] != "" ==> raw[k..][0] == b[from + k];
    if b[from + k] == '{' {
      value, next, inside := TakeBraced(b, from + k, buf, raw[k..]);
    } else {
      value, next := TakePlain(b, from + k, raw[k..]);
      inside := true;
    }
  }

  // ---------- The settings ----------

  datatype Role =
    | Text
    | Plain                  // an alias: nothing is stored under its own place
    | OptionBit(k: nat)
    | TcpIpSwitch
    | OptionsMap
    | Unsigned               // a 32-bit number
    | Byte
    | ThreeWay               // one byte, where 255 stands for a default that is not printed
    | Versions               // one byte, a bit for each TLS version

  predicate Numeric(role: Role) { role.Unsigned? || role.Byte? || role.ThreeWay? || role.Versions? }

  function Digits(s: string): nat {
    if s == "" || !('0' <= s[|s| - 1] <= '9') then 0 else 10 * Digits(s[..|s| - 1]) + (s[|s| - 1] as int - '0' as int)
  }

  function DigitsFrom(s: string, i: nat): (k: nat)
    requires i <= |s|
    ensures i <= k <= |s|
    decreases |s| - i
  {
    if i < |s| && '0' <= s[i] <= '9' then DigitsFrom(s, i + 1) else i
  }

  /** The number at the start of a text: white space, a sign, digits; what follows is ignored. */
  function Number(value: string): int {
    var s := LeftTrimmed(value);
    if s != "" && (s[0] == '-' || s[0] == '+') then
      var n: int := Digits(s[1..DigitsFrom(s, 1)]);
      if s[0] == '-' then -n else n
    else Digits(s[..DigitsFrom(s, 0)])
  }

  const ULONG_MAX := 0xffff_ffff_ffff_ffff

  function UnsignedLong(value: string): nat {
    var n := Number(value);
    if n > ULONG_MAX || -n > ULONG_MAX then ULONG_MAX else n % (ULONG_MAX + 1)
  }

  function BitsOf(n: nat, from: nat): set<nat>
    decreases 32 - from
  {
    if from >= 32 then {} else (if n % 2 == 1 then {from} else {}) + BitsOf(n / 2, from + 1)
  }

  const TWO_TO_32 := 0x1_0000_0000

  const TLS_VERSIONS := ["TLSv1.1", "TLSv1.2", "TLSv1.3"]

  /** The name is somewhere in the text, in any case of letters. */
  predicate Mentions(value: string, name: string) {
    exists k | 0 <= k <= |value| :: NamedAt(value, name, k)
  }

  predicate NamedAt(value: string, name: string, k: nat) {
    k + |name| <= |value| && SameName(value[k..k + |name|], name)
  }

  /** The bit of the TLS version `k`. */
  function VersionBit(k: nat): nat { if k == 0 then 1 else 2 * VersionBit(k - 1) }

  /** The bits of the first `k` TLS versions the text mentions. */
  function VersionsIn(value: string, k: nat): (bits: nat)
    requires k <= |TLS_VERSIONS|
  {
    if k == 0 then 0
    else VersionsIn(value, k - 1) + if Mentions(value, TLS_VERSIONS[k - 1]) then VersionBit(k - 1) else 0
  }

  /** The number stored for a text. */
  function NumberFor(role: Role, value: string): nat {
    match role
    case Unsigned => UnsignedLong(value) % TWO_TO_32
    case Versions => if Number(value) % 256 != 0 then Number(value) % 256 else VersionsIn(value, |TLS_VERSIONS|)
    case _ => Number(value) % 256
  }

  /** The list of version names, if the text is not a number. */
  method ReadVersions(value: string) returns (bits: nat)
    ensures bits == NumberFor(Versions, value)
  {
    hide Number, Mentions;
    bits := Number(value) % 256;
    if bits == 0 {
      for i := 0 to |TLS_VERSIONS|
        invariant bits == VersionsIn(value, i)
      {
        if Mentions(value, TLS_VERSIONS[i]) {
          bits := bits + VersionBit(i);
        }
      }
    }
  }

  /** What storing the text under a key of the role asks of the settings. */
  function AssignOf(role: Role, value: string): Assign {
    match role
    case OptionBit(k) => Bit(k, UnsignedLong(value) != 0)
    case TcpIpSwitch => TcpIp(Number(value) % 256 != 0)
    case OptionsMap => Options(BitsOf(UnsignedLong(value), 0))
    case _ => Other
  }

  /** What a connection holds: option bits and switches, texts, and one number for each key that has one. */
  datatype Content = Content(settings: Settings, texts: map<nat, string>, numbers: seq<nat>)

  ghost predicate Roles(keys: seq<Key>, roles: seq<Role>) {
    && Sound(keys) && |roles| == |keys|
    && forall i :: 0 <= i < |roles| && roles[i].OptionBit? ==> roles[i].k < OPTION_KEYS
  }

  /** One key of a connection string: the last value given for a key counts. */
  function Put(role: Role, s: Content, i: nat, value: string): (e: Content)
    requires Shaped(s.settings) && (role.OptionBit? ==> role.k < OPTION_KEYS)
    ensures Shaped(e.settings) && |e.numbers| == |s.numbers|
  {
    Content(Applied(s.settings, AssignOf(role, value)),
            if role.Text? then s.texts[i := value] else s.texts,
            if Numeric(role) && i < |s.numbers| then s.numbers[i := NumberFor(role, value)] else s.numbers)
  }

  predicate Placed(stores: seq<Pair>, count: nat) { forall i :: 0 <= i < |stores| ==> stores[i].0 < count }

  ghost function PutAll(keys: seq<Key>, roles: seq<Role>, s: Content, stores: seq<Pair>): (e: Content)
    requires Roles(keys, roles) && Shaped(s.settings) && Placed(stores, |keys|)
    ensures Shaped(e.settings) && |e.numbers| == |s.numbers|
  {
    if stores == [] then s
    else
      var k := |stores| - 1;
      Put(roles[stores[k].0], PutAll(keys, roles, s, stores[..k]), stores[k].0, stores[k].1)
  }

  lemma LookupPlaced(keys: seq<Key>, name: string)
    requires Sound(keys)
    ensures Lookup(keys, name).Some? ==> Lookup(keys, name).value < |keys|
  {
  }

  lemma PlacedThen(p: Pair, rest: Parsed, count: nat)
    requires p.0 < count && Placed(rest.stores, count)
    ensures Placed(Then(p, rest).stores, count)
  {
  }

  lemma {:induction false} ParsePlaced(keys: seq<Key>, t: string)
    requires Sound(keys)
    ensures Placed(Parse(keys, t).stores, |keys|)
    decreases |t|
  {
    hide ValueOf, IndexOf, Trimmed, Lookup, Sound, Then, Placed;
    assert Placed([], |keys|) by { NonePlaced(|keys|); }
    if t == "" {
    } else if t[0] == ';' {
      ParsePlaced(keys, t[1..]);
    } else if IndexOf(t, '=').Some? {
      var e := IndexOf(t, '=').value;
      var raw := t[e + 1..];
      var i := Lookup(keys, Trimmed(t[..e]));
      if i.None? {
        if IndexOf(raw, ';').Some? {
          ParsePlaced(keys, raw[IndexOf(raw, ';').value + 1..]);
        }
      } else {
        LookupPlaced(keys, Trimmed(t[..e]));
        if ValueOf(raw).1.Some? {
          ParsePlaced(keys, ValueOf(raw).1.value);
          PlacedThen((i.value, ValueOf(raw).0), Parse(keys, ValueOf(raw).1.value), |keys|);
        } else {
          OnePlaced((i.value, ValueOf(raw).0), |keys|);
        }
      }
    }
  }

  lemma NonePlaced(count: nat)
    ensures Placed([], count)
  {
  }

  lemma OnePlaced(p: Pair, count: nat)
    requires p.0 < count
    ensures Placed([p], count)
  {
  }

  /** What is left to do, after the values `done` have been stored. */
  ghost predicate Left(keys: seq<Key>, t: string, done: seq<Pair>, rest: string) {
    && Parse(keys, t) == Parsed(done + Parse(keys, rest).stores, Parse(keys, rest).ok)
    && Placed(done, |keys|)
  }

  /** What a key and the text after its '=' lead to. */
  ghost predicate Leads(keys: seq<Key>, rest: string, i: Option<nat>, raw: string) {
    && rest != "" && rest[0] != ';'
    && (match IndexOf(rest, '=')
        case None => false
        case Some(e) => raw == rest[e + 1..] && i == Lookup(keys, Trimmed(rest[..e])))
  }

  lemma LeftAfterSemicolon(keys: seq<Key>, t: string, done: seq<Pair>, rest: string)
    requires Left(keys, t, done, rest) && rest != "" && rest[0] == ';'
    ensures Left(keys, t, done, rest[1..])
  {
  }

  lemma LeftWithoutKey(keys: seq<Key>, t: string, done: seq<Pair>, rest: string)
    requires Left(keys, t, done, rest) && rest != "" && rest[0] != ';' && IndexOf(rest, '=').None?
    ensures Parse(keys, t) == Parsed(done, false)
  {
    assert done + [] == done;
  }

  lemma LeftAtEnd(keys: seq<Key>, t: string, done: seq<Pair>)
    requires Left(keys, t, done, "")
    ensures Parse(keys, t) == Parsed(done, true)
  {
    assert done + [] == done;
  }

  lemma LeftAfterUnknown(keys: seq<Key>, t: string, done: seq<Pair>, rest: string, raw: string)
    requires Left(keys, t, done, rest) && Leads(keys, rest, None, raw)
    ensures Left(keys, t, done, match IndexOf(raw, ';') case None => "" case Some(j) => raw[j + 1..])
  {
    hide ValueOf, IndexOf, Trimmed;
  }

  lemma LeftAfterValue(keys: seq<Key>, t: string, done: seq<Pair>, rest: string, i: nat, raw: string)
    requires Sound(keys) && Left(keys, t, done, rest) && Leads(keys, rest, Some(i), raw)
    ensures i < |keys|
    ensures Left(keys, t, done + [(i, ValueOf(raw).0)], match ValueOf(raw).1 case None => "" case Some(more) => more)
  {
    hide ValueOf, IndexOf, Trimmed;
    var p := (i, ValueOf(raw).0);
    var more := match ValueOf(raw).1 case None => "" case Some(more) => more;
    assert Parse(keys, rest) == Then(p, Parse(keys, more));
    assert done + ([p] + Parse(keys, more).stores) == (done + [p]) + Parse(keys, more).stores;
  }

  // ---------- The room in ValueBuf ----------

  /** ValueBuf has four characters less than the text. */
  function RoomFor(text: string): nat { if |text| < 4 then 0 else |text| - 4 }

  predicate LongNames(keys: seq<Key>) { forall i :: 0 <= i < |keys| ==> |keys[i].name| > 1 }

  /** The text is a key of two letters, '=' and an opening brace. */
  predicate OneTooMany(keys: seq<Key>, text: string) {
    |text| == 4 && text[2..] == "={" && Lookup(keys, Trimmed(text[..2])).Some?
  }

  lemma {:induction false} KeyFound(keys: seq<Key>, name: string)
    requires Sound(keys) && LongNames(keys) && Lookup(keys, name).Some?
    ensures |name| > 1 && name[0] != ';' && '=' !in name
  {
    var k := ConnString.Find(keys, name, 0).value;
    var own := keys[k].name;
    assert Lower(name[0]) == Lower(own[0]);
    assert forall i :: 0 <= i < |name| ==> Lower(own[i]) == Lower(name[i]);
  }

  /** The first key of such a text. */
  lemma OneTooManyStarts(keys: seq<Key>, text: string)
    requires Sound(keys) && LongNames(keys) && OneTooMany(keys, text)
    ensures text[0] != ';' && IndexOf(text, '=') == Some(2) && text[3..] == "{" && Room("{") == 1
  {
    hide Lookup, Trimmed, IndexOf, Sound;
    var name := text[..2];
    KeyFound(keys, Trimmed(name));
    TrimmedWhole(name);
    assert text == name + ['='] + "{";
    IndexOfIn(name, '=', "{");
    assert text[3..] == text[2..][1..] == "{";
    OpeningBrace();
  }

  lemma OpeningBrace()
    ensures Room("{") == 1
  {
    assert LeftTrimmed("{") == "{" && "{"[1..] == "";
    UnbracedShorter("");
  }

  lemma TrimmedWhole(s: string)
    requires |Trimmed(s)| >= |s|
    ensures Trimmed(s) == s
  {
    LeftTrimmedShorter(s);
    RightTrimmedShorter(LeftTrimmed(s));
    if s != "" && IsSpace(s[0]) {
      LeftTrimmedShorter(s[1..]);
    }
    if s != "" && !IsSpace(s[0]) && IsSpace(s[|s| - 1]) {
      RightTrimmedShorter(s[..|s| - 1]);
    }
  }

  /** A value in braces fits ValueBuf, unless the whole text is a key of two letters with an opening brace. */
  lemma RoomFits(keys: seq<Key>, text: string, rest: string, i: nat, raw: string)
    requires Sound(keys) && LongNames(keys) && |rest| <= |text| && (|rest| == |text| ==> rest == text)
    requires Leads(keys, rest, Some(i), raw)
    ensures Room(raw) > RoomFor(text) <==> rest == text && OneTooMany(keys, text)
  {
    hide Lookup, Trimmed, IndexOf, Unbraced, Sound, LeftTrimmed;
    var e := IndexOf(rest, '=').value;
    KeyFound(keys, Trimmed(rest[..e]));
    TrimmedShorter(rest[..e]);
    LeftTrimmedShorter(raw);
    var s := LeftTrimmed(raw);
    if s != "" && s[0] == '{' {
      UnbracedShorter(s[1..]);
      if |s| == 1 && |text| == 4 {
        LeftTrimmedAll(raw);
        assert rest == text && e == 2 && raw == "{";
        assert text[2..] == [text[2]] + text[3..];
      }
    }
    if rest == text && OneTooMany(keys, text) {
      OneTooManyStarts(keys, text);
    }
  }

  lemma LeftTrimmedAll(raw: string)
    requires |raw| <= 1 && LeftTrimmed(raw) != ""
    ensures LeftTrimmed(raw) == raw
  {
  }

  /** Cuts the buffer after the key that starts at `from`, and looks the key up. */
  method TakeKey(b: array<char>, from: nat, keys: seq<Key>, ghost rest: string)
    returns (found: bool, i: Option<nat>, value: nat, ghost raw: string)
    requires Holds(b, from, rest) && rest != "" && rest[0] != ';'
    modifies b
    ensures found <==> IndexOf(rest, '=').Some?
    ensures found ==> Leads(keys, rest, i, raw) && from < value < b.Length && Holds(b, value, raw)
  {
    hide Trimmed, IndexOf, Lookup;
    var p := Find(b, from, '=', rest);
    if p == -1 {
      return false, None, 0, "";
    }
    ghost var e := p - from;
    HeldPrefix(b, from, rest, e);
    HoldsFrom(b, from, rest, e + 1);
    raw := rest[e + 1..];
    var start, end := CutAndTrim(b, from, p, raw);
    return true, Lookup(keys, b[start..end]), p + 1, raw;
  }

  method SkipUnknown(b: array<char>, from: nat, ghost raw: string) returns (next: int, ghost rest: string)
    requires Holds(b, from, raw)
    ensures rest == match IndexOf(raw, ';') case None => "" case Some(j) => raw[j + 1..]
    ensures if next == -1 then rest == "" else from <= next && GoesOn(b, next, rest)
  {
    hide IndexOf;
    next := Find(b, from, ';', raw);
    if next == -1 {
      return -1, "";
    }
    HoldsFrom(b, from, raw, next - from + 1);
    return next + 1, raw[next - from + 1..];
  }

  class Dsn {
    const keys: seq<Key>
    const roles: seq<Role>
    var options: Bits
    var tcpIp: bool
    const fields: array<bool>
    var texts: map<nat, string>
    const numbers: array<nat>

    constructor (keys: seq<Key>, roles: seq<Role>, defaults: seq<nat>)
      requires Roles(keys, roles) && |defaults| == |keys|
      ensures Valid() && this.keys == keys && this.roles == roles && fresh(fields) && fresh(numbers)
      ensures Now() == Content(FRESH, map[], defaults)
    {
      this.keys, this.roles := keys, roles;
      numbers := new nat[|keys|](i requires 0 <= i < |keys| => defaults[i]);
      options, tcpIp, texts := {}, false, map[];
      fields := new bool[OPTION_KEYS](_ => false);
    }

    ghost predicate Valid() { Roles(keys, roles) && fields.Length == OPTION_KEYS && numbers.Length == |keys| }

    ghost function Settled(): (s: Settings)
      requires Valid()
      reads this, fields
      ensures Shaped(s)
    {
      Settings(options, tcpIp, fields[..])
    }

    ghost function Now(): Content
      requires Valid()
      reads this, fields, numbers
    {
      Content(Settled(), texts, numbers[..])
    }

    method SetOptionValue(k: nat, on: bool)
      requires Valid() && k < OPTION_KEYS
      modifies this`options, fields
      ensures Settled() == SetOption(old(Settled()), k, on)
    {
      fields[k] := on;
      if on {
        options := options + {Flag(k)};
      } else {
        options := options - {Flag(k)};
      }
    }

    /** The switch against the one that has been set, if the key is one of the two. */
    method SwitchDependents(role: Role)
      requires Valid()
      modifies this`options, this`tcpIp, fields
      ensures Settled() == match role
                           case TcpIpSwitch => SwitchFromTcpIp(old(Settled()))
                           case OptionBit(k) =>
                             if k == NAMED_PIPE then SwitchFromPipe(old(Settled())) else old(Settled())
                           case _ => old(Settled())
    {
      if role == OptionBit(NAMED_PIPE) {
        tcpIp := !fields[NAMED_PIPE];
      } else if role.TcpIpSwitch? {
        SetOptionValue(NAMED_PIPE, !tcpIp);
      }
    }

    method StoreValue(i: nat, value: string, overwrite: bool)
      requires Valid() && i < |keys|
      modifies this, fields, numbers
      ensures Settled() == Stored(old(Settled()), AssignOf(roles[i], value), overwrite)
      ensures texts == if roles[i].Text? && (overwrite || i !in old(texts)) then old(texts)[i := value] else old(texts)
      ensures numbers[..] == if Numeric(roles[i]) && (overwrite || old(numbers[i]) == 0)
                             then old(numbers[..])[i := NumberFor(roles[i], value)] else old(numbers[..])
    {
      hide UnsignedLong, Number, BitsOf, VersionsIn;
      match roles[i] {
        case Text =>
          if overwrite || i !in texts {
            texts := texts[i := value];
          }
        case Plain =>
        case TcpIpSwitch =>
          if !tcpIp || overwrite {
            tcpIp := Number(value) % 256 != 0;
          }
        case OptionsMap =>
          if options == {} || overwrite {
            options := BitsOf(UnsignedLong(value), 0);
          }
        case OptionBit(k) =>
          if !fields[k] || overwrite {
            SetOptionValue(k, UnsignedLong(value) != 0);
          }
        case Unsigned =>
          if numbers[i] == 0 || overwrite {
            numbers[i] := UnsignedLong(value) % TWO_TO_32;
          }
        case Versions =>
          if numbers[i] == 0 || overwrite {
            numbers[i] := ReadVersions(value);
          }
        case _ =>
          if numbers[i] == 0 || overwrite {
            numbers[i] := Number(value) % 256;
          }
      }
      SwitchDependents(roles[i]);
    }

    /** Every field that has a bit is set from it. */
    method UpdateOptionsFields()
      requires Valid()
      modifies this`options, this`tcpIp, fields
      ensures Settled() == FromBits(old(Settled()), OPTION_KEYS)
    {
      hide SwitchFromPipe, SetOption, SwitchFromTcpIp;
      for k := 0 to OPTION_KEYS
        invariant Settled() == FromBits(old(Settled()), k)
      {
        fields[k] := Flag(k) in options;
        SwitchDependents(OptionBit(k));
      }
    }

    lemma PutMore(s: Content, done: seq<Pair>, i: nat, value: string)
      requires Valid() && Shaped(s.settings) && Placed(done, |keys|) && i < |keys|
      ensures PutAll(keys, roles, s, done + [(i, value)]) == Put(roles[i], PutAll(keys, roles, s, done), i, value)
    {
      assert (done + [(i, value)])[..|done|] == done;
    }

    lemma PutNone(s: Content)
      requires Valid() && Shaped(s.settings)
      ensures PutAll(keys, roles, s, []) == s
    {
    }

    /** One key of a connection string. */
    method TakeSetting(i: nat, value: string)
      requires Valid() && i < |keys|
      modifies this, fields, numbers
      ensures Now() == Put(roles[i], old(Now()), i, value)
    {
      hide UnsignedLong, Number, BitsOf, Stored, FromBits;
      StoreValue(i, value, true);
      if roles[i].OptionsMap? {
        UpdateOptionsFields();
      }
    }

    /** One key with its value, or an unknown one; `found` is false if there is no '='. */
    method TakePart(b: array<char>, key: nat, buf: array<char>, ghost text: string, ghost done: seq<Pair>,
        ghost rest: string, ghost start: Content)
      returns (found: bool, next: int, inside: bool, ghost taken: seq<Pair>, ghost more: string)
      requires Valid() && Shaped(start.settings) && buf != b && Holds(b, key, rest) && rest != "" && rest[0] != ';'
      requires Left(keys, text, done, rest) && Now() == PutAll(keys, roles, start, done)
      requires |rest| <= |text| && (|rest| == |text| ==> rest == text) && buf.Length == RoomFor(text)
      modifies this, fields, numbers, b, buf
      ensures Placed(taken, |keys|) && Now() == PutAll(keys, roles, start, taken)
      ensures !found ==> Parse(keys, text) == Parsed(taken, false)
      ensures found ==> Left(keys, text, taken, more)
      ensures found ==> if next == -1 then more == "" else key < next && GoesOn(b, next, more)
      ensures LongNames(keys) ==> (inside <==> !(rest == text && OneTooMany(keys, text)))
    {
      hide Parse, Put, PutAll, Sound, IndexOf, OneTooMany, LongNames, Room;
      NotYet(text, rest);
      var i, value;
      ghost var raw;
      found, i, value, raw := TakeKey(b, key, keys, rest);
      taken, more, next, inside := done, rest, 0, true;
      if !found {
        LeftWithoutKey(keys, text, done, rest);
        return;
      }
      if i.None? {
        LeftAfterUnknown(keys, text, done, rest, raw);
        next, more := SkipUnknown(b, value, raw);
      } else {
        LeftAfterValue(keys, text, done, rest, i.value, raw);
        if LongNames(keys) {
          RoomFits(keys, text, rest, i.value, raw);
        }
        var v;
        v, next, inside := TakeValue(b, value, buf, raw);
        assert Now() == PutAll(keys, roles, start, done);
        PutMore(start, done, i.value, v);
        TakeSetting(i.value, v);
        taken := done + [(i.value, v)];
        more := match ValueOf(raw).1 case None => "" case Some(rest) => rest;
      }
    }

    /** MADB_ParseConnString: all values of the text are stored, in order. `inside` is false if a character is written
        behind the end of ValueBuf, which happens for a single kind of text. */
    method ParseConnString(text: string) returns (ok: bool, inside: bool)
      requires Valid() && NUL !in text
      modifies this, fields, numbers
      ensures Placed(Parse(keys, text).stores, |keys|)
      ensures Now() == PutAll(keys, roles, old(Now()), Parse(keys, text).stores)
      ensures ok == Parse(keys, text).ok
      ensures LongNames(keys) ==> (inside <==> !OneTooMany(keys, text))
    {
      hide Parse, Put, PutAll, Sound, IndexOf, OneTooMany, LongNames, Room, Left;
      var b := new char[|text| + 1](i requires 0 <= i <= |text| => if i < |text| then text[i] else NUL);
      var buf := new char[RoomFor(text)];
      var key: int := 0;
      ghost var rest, done: seq<Pair> := text, [];
      inside := true;
      ParsePlaced(keys, text);
      HoldsStill(b, 0, text);
      LeftAtStart(text);
      PutNone(Now());
      NotYet(text, text);
      while 0 <= key < b.Length - 1
        invariant Left(keys, text, done, rest) && Placed(done, |keys|)
        invariant if key == -1 then rest == "" else GoesOn(b, key, rest)
        invariant Now() == PutAll(keys, roles, old(Now()), done)
        invariant key == 0 ==> rest == text
        invariant LongNames(keys) ==> (inside <==> !(OneTooMany(keys, text) && key != 0))
        decreases if key < 0 then 0 else b.Length + 1 - key
      {
        assert rest[0] == b[key];
        if b[key] == ';' {
          LeftAfterSemicolon(keys, text, done, rest);
          HoldsFrom(b, key, rest, 1);
          key, rest := key + 1, rest[1..];
        } else {
          var found, next, fits;
          found, next, fits, done, rest := TakePart(b, key, buf, text, done, rest, old(Now()));
          inside := inside && fits;
          if !found {
            return false, inside;
          }
          key := next;
        }
      }
      LeftAtEnd(keys, text, done);
      return true, inside;
    }

    /** The text in question is one key, and its value comes right away. */
    lemma NotYet(text: string, rest: string)
      requires Valid()
      ensures LongNames(keys) && OneTooMany(keys, text) && rest == text ==>
                && rest != "" && rest[0] != ';' && IndexOf(rest, '=') == Some(2)
                && Lookup(keys, Trimmed(rest[..2])).Some?
    {
      hide Lookup, Trimmed, IndexOf, Sound;
      if LongNames(keys) && OneTooMany(keys, text) {
        OneTooManyStarts(keys, text);
      }
    }

    lemma LeftAtStart(text: string)
      ensures Left(keys, text, [], text)
    {
      assert [] + Parse(keys, text).stores == Parse(keys, text).stores;
    }
  }
}
