/** Connection strings: what the parser takes from a text, and what the printer makes of a list of settings. */
module ConnString {
  import opened Common

  // ---------- Text ----------

  function Lower(c: char): char { if 'A' <= c <= 'Z' then (c as int + 32) as char else c }

  predicate SameName(a: string, b: string) {
    |a| == |b| && forall i :: 0 <= i < |a| ==> Lower(a[i]) == Lower(b[i])
  }

  function IndexOf(s: string, c: char): (k: Option<nat>)
    ensures k.Some? ==> k.value < |s| && s[k.value] == c && c !in s[..k.value]
    ensures k.None? ==> c !in s
  {
    if s == "" then None
    else if s[0] == c then Some(0)
    else match IndexOf(s[1..], c)
      case None => None
      case Some(k) => Some(k + 1)
  }

  // ---------- Keys ----------

  /** A key of the table; an alias names the place of the key it stands for. */
  datatype Key = Key(name: string, alias: Option<nat>)

  predicate WellNamed(name: string) {
    name != "" && '=' !in name && name[0] != ';' && !IsSpace(name[0]) && !IsSpace(name[|name| - 1])
  }

  /** What the parser and the printer rely on in the table. */
  ghost predicate Sound(keys: seq<Key>) {
    && (forall i :: 0 <= i < |keys| ==> WellNamed(keys[i].name))
    && (forall i, j :: 0 <= i < j < |keys| ==> !SameName(keys[i].name, keys[j].name))
    && (forall i :: 0 <= i < |keys| && keys[i].alias.Some? ==>
          keys[i].alias.value < |keys| && keys[keys[i].alias.value].alias.None?)
  }

  /** The first key with the name, in any case of letters, from place `i` on. */
  function Find(keys: seq<Key>, name: string, i: nat): (k: Option<nat>)
    requires i <= |keys|
    ensures k.Some? ==> i <= k.value < |keys| && SameName(keys[k.value].name, name)
    ensures k.None? ==> forall j :: i <= j < |keys| ==> !SameName(keys[j].name, name)
    decreases |keys| - i
  {
    if i == |keys| then None else if SameName(keys[i].name, name) then Some(i) else Find(keys, name, i + 1)
  }

  function Lookup(keys: seq<Key>, name: string): Option<nat> {
    match Find(keys, name, 0)
    case None => None
    case Some(i) => Some(if keys[i].alias.Some? then keys[i].alias.value else i)
  }

  lemma LookupOwn(keys: seq<Key>, i: nat)
    requires Sound(keys) && i < |keys| && keys[i].alias.None?
    ensures Lookup(keys, keys[i].name) == Some(i)
  {
    assert SameName(keys[i].name, keys[i].name);
  }

  // ---------- Parsing ----------

  /** The text of a value in braces, where '}}' stands for '}', and what follows the closing brace, if there is
      one. Without it, only the text up to the last '}}' is kept. */
  function Unbraced(s: string): (r: (string, Option<string>))
    ensures r.1.Some? ==> |r.1.value| < |s|
    decreases |s|
  {
    match IndexOf(s, '}')
    case None => ("", None)
    case Some(j) =>
      if j + 1 < |s| && s[j + 1] == '}' then
        var more := Unbraced(s[j + 2..]);
        (s[..j] + "}" + more.0, more.1)
      else (s[..j], Some(s[j + 1..]))
  }

  /** The value after '=', and the text at which the next key starts. */
  function ValueOf(raw: string): (r: (string, Option<string>))
    ensures r.1.Some? ==> |r.1.value| <= |raw|
  {
    LeftTrimmedShorter(raw);
    var s := LeftTrimmed(raw);
    if s != "" && s[0] == '{' then
      var b := Unbraced(s[1..]);
      (Trimmed(b.0), match b.1 case None => None case Some(rest) => Some(if rest == "" then "" else rest[1..]))
    else
      match IndexOf(s, ';')
      case None => (Trimmed(s), None)
      case Some(j) => (Trimmed(s[..j]), Some(s[j + 1..]))
  }

  lemma {:induction false} LeftTrimmedShorter(s: string)
    ensures |LeftTrimmed(s)| <= |s|
  {
    if s != "" && IsSpace(s[0]) {
      LeftTrimmedShorter(s[1..]);
    }
  }

  type Pair = (nat, string)

  /** The values stored, in order, and whether every part of the text was a key and a value. */
  datatype Parsed = Parsed(stores: seq<Pair>, ok: bool)

  function Then(p: Pair, rest: Parsed): Parsed { Parsed([p] + rest.stores, rest.ok) }

  function Parse(keys: seq<Key>, t: string): Parsed
    decreases |t|
  {
    if t == "" then Parsed([], true)
    else if t[0] == ';' then Parse(keys, t[1..])
    else match IndexOf(t, '=')
      case None => Parsed([], false)
      case Some(e) =>
        match Lookup(keys, Trimmed(t[..e]))
        case None =>
          (match IndexOf(t[e + 1..], ';')
           case None => Parsed([], true)
           case Some(j) => Parse(keys, t[e + 1..][j + 1..]))
        case Some(i) =>
          var v := ValueOf(t[e + 1..]);
          if v.1.None? then Parsed([(i, v.0)], true) else Then((i, v.0), Parse(keys, v.1.value))
  }

  // ---------- Printing ----------

  predicate Special(v: string) { ' ' in v || ';' in v || '@' in v }

  function Quoted(v: string): string { if Special(v) then "{" + v + "}" else v }

  function Entry(keys: seq<Key>, p: Pair): string
    requires p.0 < |keys|
  {
    keys[p.0].name + "=" + Quoted(p.1)
  }

  predicate AllKeys(keys: seq<Key>, pairs: seq<Pair>) {
    forall i :: 0 <= i < |pairs| ==> pairs[i].0 < |keys| && keys[pairs[i].0].alias.None?
  }

  function Print(keys: seq<Key>, pairs: seq<Pair>): string
    requires AllKeys(keys, pairs)
  {
    if pairs == [] then "" else Entry(keys, pairs[0]) + if |pairs| == 1 then "" else ";" + Print(keys, pairs[1..])
  }

  /** Values that come through: trimmed, without '}' if they are printed in braces, and not starting with '{' if
      they are not. */
  predicate Printable(v: string) {
    && Trimmed(v) == v
    && if Special(v) then '}' !in v else v == "" || v[0] != '{'
  }

  lemma {:induction false} IndexOfIn(s: string, c: char, t: string)
    requires c !in s
    ensures IndexOf(s + [c] + t, c) == Some(|s|)
  {
    if s != "" {
      IndexOfIn(s[1..], c, t);
      assert (s + [c] + t)[1..] == s[1..] + [c] + t;
    }
  }

  lemma IndexOfNone(s: string, c: char)
    requires c !in s
    ensures IndexOf(s, c) == None
  {
  }

  lemma TrimmedName(name: string)
    requires WellNamed(name)
    ensures Trimmed(name) == name
  {
  }

  /** Text that is trimmed does not start with white space, so nothing is dropped from a text it starts. */
  lemma LeftTrimmedStays(v: string, tail: string)
    requires Trimmed(v) == v && v != ""
    ensures LeftTrimmed(v + tail) == v + tail
  {
    TrimmedStarts(v);
  }

  lemma TrimmedStarts(v: string)
    requires Trimmed(v) == v && v != ""
    ensures !IsSpace(v[0])
  {
    if IsSpace(v[0]) {
      LeftTrimmedShorter(v[1..]);
      RightTrimmedShorter(LeftTrimmed(v));
    }
  }

  lemma {:induction false} RightTrimmedShorter(s: string)
    ensures |RightTrimmed(s)| <= |s|
    decreases |s|
  {
    if s != "" && IsSpace(s[|s| - 1]) {
      RightTrimmedShorter(s[..|s| - 1]);
    }
  }

  /** The text that follows an entry: nothing, or a ';' and more. */
  predicate Follows(tail: string) { tail == "" || tail[0] == ';' }

  function Onwards(keys: seq<Key>, tail: string): Parsed {
    if tail == "" then Parsed([], true) else Parse(keys, tail[1..])
  }

  predicate IsValue(r: (string, Option<string>), v: string, tail: string) {
    r.0 == v && match r.1
                case None => tail == ""
                case Some(rest) => rest == if tail == "" then "" else tail[1..]
  }

  lemma BracedPrinted(v: string, tail: string)
    requires Trimmed(v) == v && '}' !in v && Follows(tail)
    ensures IsValue(ValueOf("{" + v + "}" + tail), v, tail)
  {
    hide Trimmed;
    var s := "{" + v + "}" + tail;
    assert LeftTrimmed(s) == s;
    assert s[1..] == v + "}" + tail;
    IndexOfIn(v, '}', tail);
    assert (v + "}" + tail)[..|v|] == v && (v + "}" + tail)[|v| + 1..] == tail;
  }

  lemma PlainPrinted(v: string, tail: string)
    requires Trimmed(v) == v && ';' !in v && (v == "" || v[0] != '{') && Follows(tail)
    ensures IsValue(ValueOf(v + tail), v, tail)
  {
    hide Trimmed;
    var s := v + tail;
    if v == "" {
      assert s == tail;
    } else {
      LeftTrimmedStays(v, tail);
      assert s[0] == v[0];
    }
    if tail == "" {
      assert s == v;
      IndexOfNone(v, ';');
    } else {
      assert s == v + ";" + tail[1..];
      IndexOfIn(v, ';', tail[1..]);
      assert s[..|v|] == v && s[|v| + 1..] == tail[1..];
    }
  }

  lemma QuotedValue(v: string, tail: string)
    requires Printable(v) && Follows(tail)
    ensures IsValue(ValueOf(Quoted(v) + tail), v, tail)
  {
    if Special(v) {
      BracedPrinted(v, tail);
    } else {
      PlainPrinted(v, tail);
    }
  }

  lemma NameOf(keys: seq<Key>, i: nat)
    requires Sound(keys) && i < |keys|
    ensures keys[i].name != "" && keys[i].name[0] != ';' && '=' !in keys[i].name
            && Trimmed(keys[i].name) == keys[i].name
  {
    TrimmedName(keys[i].name);
  }

  /** Reading a value in braces drops a character at least. */
  lemma {:induction false} UnbracedShorter(s: string)
    ensures s != "" ==> |Unbraced(s).0| < |s|
    ensures s == "" ==> Unbraced(s).0 == ""
    decreases |s|
  {
    match IndexOf(s, '}')
    case None =>
    case Some(j) =>
      if j + 1 < |s| && s[j + 1] == '}' {
        UnbracedShorter(s[j + 2..]);
      }
  }

  // ---------- Values in braces ----------

  /** Every '}' doubled. */
  function Doubled(v: string): string {
    if v == "" then "" else (if v[0] == '}' then "}}" else [v[0]]) + Doubled(v[1..])
  }

  lemma DoubledFirst(v: string, tail: string)
    requires v != ""
    ensures Doubled(v) + "}" + tail == (if v[0] == '}' then "}}" else [v[0]]) + (Doubled(v[1..]) + "}" + tail)
    ensures '}' in Doubled(v[1..]) + "}" + tail
  {
    var d := Doubled(v[1..]);
    Associated(if v[0] == '}' then "}}" else [v[0]], d, "}", tail);
    assert (d + "}" + tail)[|d|] == '}';
  }

  lemma Associated(a: string, b: string, c: string, d: string)
    ensures (a + b) + c + d == a + (b + c + d)
  {
  }

  lemma {:induction false} UnbracedDoubled(v: string, tail: string)
    requires tail == "" || tail[0] != '}'
    ensures Unbraced(Doubled(v) + "}" + tail) == (v, Some(tail))
  {
    hide IndexOf, Unbraced, Doubled;
    if v == "" {
      assert Doubled(v) + "}" + tail == "}" + tail by { NothingDoubled(); }
      ClosingBrace(tail);
    } else {
      DoubledFirst(v, tail);
      UnbracedDoubled(v[1..], tail);
      if v[0] == '}' {
        UnbracedPair(Doubled(v[1..]) + "}" + tail);
      } else {
        UnbracedOne(v[0], Doubled(v[1..]) + "}" + tail);
      }
      assert [v[0]] + v[1..] == v;
    }
  }

  lemma NothingDoubled()
    ensures Doubled("") == ""
  {
  }

  lemma ClosingBrace(tail: string)
    requires tail == "" || tail[0] != '}'
    ensures Unbraced("}" + tail) == ("", Some(tail))
  {
    var t := "}" + tail;
    assert t[0] == '}' && t[1..] == tail && t[..0] == "";
  }

  lemma UnbracedPair(s: string)
    ensures Unbraced("}}" + s) == ("}" + Unbraced(s).0, Unbraced(s).1)
  {
    var t := "}}" + s;
    assert t[0] == '}' && t[1] == '}' && t[2..] == s;
    assert t[..0] + "}" == "}";
  }

  lemma IndexOfShift(c: char, s: string, d: char)
    requires c != d
    ensures IndexOf([c] + s, d) == match IndexOf(s, d) case None => None case Some(j) => Some(j + 1)
  {
    assert ([c] + s)[1..] == s;
  }

  lemma UnbracedOne(c: char, s: string)
    requires c != '}' && '}' in s
    ensures Unbraced([c] + s) == ([c] + Unbraced(s).0, Unbraced(s).1)
  {
    hide IndexOf;
    var t, j := [c] + s, IndexOf(s, '}').value;
    IndexOfShift(c, s, '}');
    assert t[..j + 1] == [c] + s[..j];
    if j + 1 < |s| && s[j + 1] == '}' {
      assert t[j + 3..] == s[j + 2..];
      var more := Unbraced(s[j + 2..]).0;
      assert t[..j + 1] + "}" + more == [c] + (s[..j] + "}" + more);
    } else {
      assert t[j + 2..] == s[j + 1..];
    }
  }

  /** Any value, put in braces with every '}' doubled, is stored as it is but for white space at its ends. */
  lemma BracedValue(keys: seq<Key>, i: nat, v: string, tail: string)
    requires Sound(keys) && i < |keys| && keys[i].alias.None? && Follows(tail)
    ensures Parse(keys, keys[i].name + "={" + Doubled(v) + "}" + tail) == Then((i, Trimmed(v)), Onwards(keys, tail))
  {
    hide Sound, Trimmed, Doubled, Unbraced, Parse;
    var q := "{" + Doubled(v) + "}" + tail;
    assert keys[i].name + "={" + Doubled(v) + "}" + tail == keys[i].name + "=" + q;
    assert LeftTrimmed(q) == q;
    assert q[1..] == Doubled(v) + "}" + tail;
    UnbracedDoubled(v, tail);
    ParseNamed(keys, i, q);
    OnwardsOf(keys, tail);
  }

  lemma OnwardsOf(keys: seq<Key>, tail: string)
    ensures Onwards(keys, tail) == Parse(keys, if tail == "" then "" else tail[1..])
  {
  }

  // ---------- Exactly which values come through ----------

  lemma {:induction false} RightTrimmedKeeps(s: string, k: nat)
    requires k < |s| && !IsSpace(s[k])
    ensures RightTrimmed(s) <= s && |RightTrimmed(s)| > k
    decreases |s|
  {
    if IsSpace(s[|s| - 1]) {
      RightTrimmedKeeps(s[..|s| - 1], k);
    }
  }

  lemma {:induction false} RightTrimmedEnd(s: string)
    ensures RightTrimmed(s) <= s && (RightTrimmed(s) != "" ==> !IsSpace(RightTrimmed(s)[|RightTrimmed(s)| - 1]))
    decreases |s|
  {
    if s != "" && IsSpace(s[|s| - 1]) {
      RightTrimmedEnd(s[..|s| - 1]);
    }
  }

  lemma {:induction false} LeftTrimmedStart(s: string)
    ensures LeftTrimmed(s) != "" ==> !IsSpace(LeftTrimmed(s)[0])
    ensures forall c :: c in s && !IsSpace(c) ==> c in LeftTrimmed(s)
  {
    if s != "" && IsSpace(s[0]) {
      LeftTrimmedStart(s[1..]);
    }
  }

  lemma TrimmedTwice(s: string)
    ensures Trimmed(Trimmed(s)) == Trimmed(s)
  {
    LeftTrimmedStart(s);
    RightTrimmedEnd(LeftTrimmed(s));
    var w := Trimmed(s);
    if w != "" {
      assert w[0] == LeftTrimmed(s)[0];
    }
  }

  lemma TrimmedKeeps(s: string, c: char)
    requires c in s && !IsSpace(c)
    ensures c in Trimmed(s)
  {
    LeftTrimmedStart(s);
    var t := LeftTrimmed(s);
    var k :| 0 <= k < |t| && t[k] == c;
    RightTrimmedKeeps(t, k);
  }

  lemma TrimmedShorter(s: string)
    ensures |Trimmed(s)| <= |s|
  {
    LeftTrimmedShorter(s);
    RightTrimmedShorter(LeftTrimmed(s));
  }

  /** The tail of an entry adds nothing to a value in braces, or something that starts with ';'. */
  lemma UnbracedTail(tail: string)
    requires Follows(tail)
    ensures Unbraced(tail).0 == "" || Unbraced(tail).0[0] == ';'
    ensures Unbraced(tail).1.Some? ==> Unbraced(tail).0 != ""
  {
  }

  /** What is read as a value in braces does not grow, unless it runs over the ';'. */
  lemma {:induction false} UnbracedGrows(a: string, tail: string)
    requires Follows(tail)
    ensures |Unbraced(a + tail).0| <= |a| || ';' in Unbraced(a + tail).0
    decreases |a|
  {
    var s := a + tail;
    match IndexOf(s, '}')
    case None =>
    case Some(j) =>
      if j >= |a| {
        assert s[..j][|a|] == ';';
      } else if j + 1 < |s| && s[j + 1] == '}' {
        assert j + 1 < |a|;
        assert s[j + 2..] == a[j + 2..] + tail;
        UnbracedGrows(a[j + 2..], tail);
      }
  }

  lemma UnbracedStart(s: string)
    requires s != "" && s[0] != '}'
    ensures Unbraced(s).0 == "" || Unbraced(s).0[0] == s[0]
  {
  }

  function Braces(n: nat): string { if n == 0 then "" else "}" + Braces(n - 1) }

  /** Reading halves a run of braces, so it never gives back the run it was made from. */
  lemma {:induction false} RunIsHalved(n: nat, a: string, tail: string)
    requires n > 0 && Follows(tail)
    ensures !(Braces(n) + a <= Unbraced(a + "}" + tail).0)
    decreases |a|
  {
    hide IndexOf, Unbraced;
    var s := a + "}" + tail;
    var x := Unbraced(s).0;
    assert (Braces(n) + a)[0] == '}';
    if a == "" {
      assert s == "}" + tail;
      ClosingBrace(tail);
    } else if a[0] != '}' {
      assert s[0] == a[0];
      UnbracedStart(s);
    } else if |a| == 1 {
      assert s == "}}" + tail;
      UnbracedPair(tail);
      UnbracedTail(tail);
      assert a == "}";
      TwoBraces(n);
    } else if a[1] != '}' {
      assert s == "}" + s[1..] && s[1..][0] == a[1];
      ClosingBrace(s[1..]);
    } else {
      RunIsHalved(n + 1, a[2..], tail);
      PairOfRun(n, a, tail);
    }
  }

  lemma TwoBraces(n: nat)
    requires n > 0
    ensures |Braces(n) + "}"| >= 2 && (Braces(n) + "}")[1] == '}'
  {
    BracesEnd(n);
    assert Braces(n + 1) == "}" + ("}" + Braces(n - 1));
  }

  lemma PairOfRun(n: nat, a: string, tail: string)
    requires n > 0 && |a| >= 2 && a[0] == '}' && a[1] == '}'
    requires !(Braces(n + 1) + a[2..] <= Unbraced(a[2..] + "}" + tail).0)
    ensures !(Braces(n) + a <= Unbraced(a + "}" + tail).0)
  {
    hide IndexOf, Unbraced, Braces;
    var more := a[2..] + "}" + tail;
    assert a + "}" + tail == "}}" + more;
    UnbracedPair(more);
    BracesMove(n, a);
    assert Unbraced(a + "}" + tail).0[1..] == Unbraced(more).0;
  }

  lemma {:induction false} BracesMove(n: nat, a: string)
    requires n > 0 && |a| >= 2 && a[0] == '}' && a[1] == '}'
    ensures (Braces(n) + a)[1..] == Braces(n + 1) + a[2..]
    decreases n
  {
    BracesEnd(n);
    assert a == "}}" + a[2..];
    assert Braces(n) + a == Braces(n) + "}" + "}" + a[2..];
    BracesEnd(n + 1);
  }

  lemma {:induction false} BracesEnd(n: nat)
    ensures Braces(n) + "}" == Braces(n + 1)
  {
    if n > 0 {
      BracesEnd(n - 1);
    }
  }

  /** A special value whose only '}' is its last character: it is read back if nothing follows. */
  predicate EndsBraced(v: string) {
    Special(v) && Trimmed(v) == v && v[|v| - 1] == '}' && '}' !in v[..|v| - 1]
  }

  predicate PrintableLast(v: string) { Printable(v) || EndsBraced(v) }

  lemma EndsBracedRead(v: string)
    requires EndsBraced(v)
    ensures ValueOf(Quoted(v)) == (v, None)
  {
    hide Trimmed, IndexOf;
    var a := v[..|v| - 1];
    var s, body := Quoted(v), v + "}";
    assert s == "{" + v + "}" && LeftTrimmed(s) == s && s[1..] == body;
    assert body == a + ['}'] + "}";
    IndexOfIn(a, '}', "}");
    IndexOfNone("", '}');
    assert body[..|a|] == a && body[|a| + 2..] == "" && Unbraced("") == ("", None);
    assert a + "}" + "" == v;
  }

  /** Without braces a value that starts with '{' is never read back. */
  lemma OpenBraceIsLost(v: string, tail: string)
    requires Trimmed(v) == v && !Special(v) && v != "" && v[0] == '{' && Follows(tail)
    ensures ValueOf(v + tail).0 != v
  {
    hide Trimmed, Unbraced;
    var s := v + tail;
    assert LeftTrimmed(s) == s;
    assert s[1..] == v[1..] + tail;
    UnbracedGrows(v[1..], tail);
    var content := Unbraced(s[1..]).0;
    if ';' in content {
      TrimmedKeeps(content, ';');
    } else {
      TrimmedShorter(content);
    }
  }

  /** If a text that does not start with white space is trimmed to `v`, then it starts with `v` and only white space
      follows. */
  lemma TrimmedTo(c: string, v: string)
    requires Trimmed(c) == v && c != "" && !IsSpace(c[0])
    ensures v <= c && forall k :: |v| <= k < |c| ==> IsSpace(c[k])
  {
    RightTrimmedEnd(c);
    forall k | |v| <= k < |c|
      ensures IsSpace(c[k])
    {
      if !IsSpace(c[k]) {
        RightTrimmedKeeps(c, k);
      }
    }
  }

  /** The first '}' is the last character of the value. */
  lemma LastBraceRead(v: string, tail: string)
    requires Follows(tail) && v != "" && !IsSpace(v[0]) && v[|v| - 1] == '}'
    requires IndexOf(v + "}" + tail, '}') == Some(|v| - 1)
    requires Trimmed(Unbraced(v + "}" + tail).0) == v
    ensures Unbraced(v + "}" + tail).1.None?
  {
    hide Trimmed, IndexOf;
    var body, x := v + "}" + tail, Unbraced(tail).0;
    assert body[|v| + 1..] == tail && body[..|v| - 1] + "}" == v;
    assert Unbraced(body) == (v + x, Unbraced(tail).1);
    UnbracedTail(tail);
    TrimmedTo(v + x, v);
    assert x != "" ==> (v + x)[|v|] == x[0];
  }

  /** A pair of braces inside the value becomes one. */
  lemma PairRead(v: string, tail: string, j: nat)
    requires Follows(tail) && j + 1 < |v| && !IsSpace(v[0]) && v[j] == '}' && v[j + 1] == '}'
    requires IndexOf(v + "}" + tail, '}') == Some(j)
    ensures Trimmed(Unbraced(v + "}" + tail).0) != v
  {
    hide Trimmed, IndexOf, Unbraced, Braces;
    var a := v[j + 2..];
    PairSkipped(v + "}" + tail, j);
    BodyParts(v, tail, j);
    RunIsHalved(1, a, tail);
    OneBrace();
    PairIsLost(v, j, Unbraced(a + "}" + tail).0);
  }

  lemma OneBrace()
    ensures Braces(1) == "}"
  {
    assert Braces(1) == "}" + Braces(0);
  }

  lemma BodyParts(v: string, tail: string, j: nat)
    requires j + 1 < |v| && v[j + 1] == '}'
    ensures var body := v + "}" + tail;
            body[..j] == v[..j] && body[j + 1] == '}' && body[j + 2..] == v[j + 2..] + "}" + tail
  {
  }

  lemma PairIsLost(v: string, j: nat, x: string)
    requires j + 1 < |v| && !IsSpace(v[0]) && v[j] == '}' && v[j + 1] == '}' && !("}" + v[j + 2..] <= x)
    ensures Trimmed(v[..j] + "}" + x) != v
  {
    hide Trimmed;
    var c := v[..j] + "}" + x;
    assert c[0] == v[0];
    assert v[j + 1..] == "}" + v[j + 2..];
    assert c[j + 1..] == x;
    TrimmedIsPrefix(c);
    AfterPrefix(v, c, j + 1);
  }

  lemma PairSkipped(s: string, j: nat)
    requires IndexOf(s, '}') == Some(j) && j + 1 < |s| && s[j + 1] == '}'
    ensures Unbraced(s).0 == s[..j] + "}" + Unbraced(s[j + 2..]).0
  {
    hide IndexOf;
  }

  lemma TrimmedIsPrefix(c: string)
    requires c != "" && !IsSpace(c[0])
    ensures Trimmed(c) <= c
  {
    RightTrimmedEnd(c);
  }

  lemma AfterPrefix(v: string, c: string, k: nat)
    requires k <= |v| && k <= |c|
    ensures v <= c ==> v[k..] <= c[k..]
  {
  }

  /** In braces a value with a '}' is read back in one case only, and then nothing behind it is read. */
  lemma CloseBraceIsLost(v: string, tail: string)
    requires Trimmed(v) == v && Special(v) && '}' in v && Follows(tail)
    requires ValueOf("{" + v + "}" + tail).0 == v
    ensures EndsBraced(v) && ValueOf("{" + v + "}" + tail).1.None?
  {
    hide Trimmed, Unbraced, IndexOf;
    var s := "{" + v + "}" + tail;
    var j := IndexOf(v, '}').value;
    var body := v + "}" + tail;
    assert LeftTrimmed(s) == s && s[1..] == body;
    assert v == v[..j] + ['}'] + v[j + 1..];
    assert body == v[..j] + ['}'] + (v[j + 1..] + "}" + tail);
    IndexOfIn(v[..j], '}', v[j + 1..] + "}" + tail);
    TrimmedStarts(v);
    if j + 1 == |v| {
      LastBraceRead(v, tail);
    } else if v[j + 1] == '}' {
      PairRead(v, tail, j);
    } else {
      UnbracedCut(body, j);
      TrimmedShorter(body[..j]);
    }
  }

  lemma UnbracedCut(s: string, j: nat)
    requires IndexOf(s, '}') == Some(j) && j + 1 < |s| && s[j + 1] != '}'
    ensures Unbraced(s).0 == s[..j]
  {
  }

  /** A value that is read back as it was printed comes through, or is one that can only stand last. */
  lemma ReadBack(v: string, tail: string)
    requires Follows(tail) && ValueOf(Quoted(v) + tail).0 == v
    ensures Printable(v) || (EndsBraced(v) && ValueOf(Quoted(v) + tail).1.None?)
  {
    hide Trimmed;
    ValueIsTrimmed(Quoted(v) + tail);
    if Special(v) {
      if '}' in v {
        assert Quoted(v) + tail == "{" + v + "}" + tail;
        CloseBraceIsLost(v, tail);
      }
    } else if v != "" && v[0] == '{' {
      OpenBraceIsLost(v, tail);
    }
  }

  lemma ValueIsTrimmed(raw: string)
    ensures Trimmed(ValueOf(raw).0) == ValueOf(raw).0
  {
    hide Trimmed, Unbraced, IndexOf;
    var s := LeftTrimmed(raw);
    if s != "" && s[0] == '{' {
      TrimmedTwice(Unbraced(s[1..]).0);
    } else {
      match IndexOf(s, ';')
      case None => TrimmedTwice(s);
      case Some(j) => TrimmedTwice(s[..j]);
    }
  }

  /** Parsing what was printed gives back the same keys and values in the same order if and only if every value
      comes through; the last one may also end with its only '}'. */
  lemma {:induction false} PrintParseExactly(keys: seq<Key>, pairs: seq<Pair>)
    requires Sound(keys) && AllKeys(keys, pairs)
    ensures Parse(keys, Print(keys, pairs)) == Parsed(pairs, true) <==>
              forall i :: 0 <= i < |pairs| ==>
                if i + 1 < |pairs| then Printable(pairs[i].1) else PrintableLast(pairs[i].1)
    decreases |pairs|
  {
    hide Printable, EndsBraced, Sound, Entry, ValueOf;
    if pairs != [] {
      var p, rest := pairs[0], pairs[1..];
      var tail := if rest == [] then "" else ";" + Print(keys, rest);
      var v := ValueOf(Quoted(p.1) + tail);
      assert Print(keys, pairs) == Entry(keys, p) + tail;
      ParseAny(keys, p, tail);
      PrintParseExactly(keys, rest);
      if v.0 == p.1 {
        ReadBack(p.1, tail);
      }
      if Printable(p.1) {
        QuotedValue(p.1, tail);
      } else if EndsBraced(p.1) && rest == [] {
        EndsBracedRead(p.1);
        assert Quoted(p.1) + "" == Quoted(p.1);
      }
      assert forall i :: 0 <= i < |rest| ==> rest[i] == pairs[i + 1];
    }
  }

  /** A key, '=' and any text. */
  lemma {:induction false} ParseNamed(keys: seq<Key>, i: nat, raw: string)
    requires Sound(keys) && i < |keys| && keys[i].alias.None?
    ensures var v := ValueOf(raw);
            Parse(keys, keys[i].name + "=" + raw)
            == if v.1.None? then Parsed([(i, v.0)], true) else Then((i, v.0), Parse(keys, v.1.value))
  {
    hide ValueOf, Sound, Trimmed;
    var name := keys[i].name;
    var t := name + "=" + raw;
    NameOf(keys, i);
    IndexOfIn(name, '=', raw);
    assert t[..|name|] == name && t[|name| + 1..] == raw;
    LookupOwn(keys, i);
    assert t[0] == name[0];
  }

  /** The key that a name of the table stands for. */
  function Meant(keys: seq<Key>, j: nat): nat
    requires j < |keys|
  {
    if keys[j].alias.Some? then keys[j].alias.value else j
  }

  /** Two names are the same if they have the same letters, each of which may be a capital in one and a small one in
      the other. */
  lemma SameNameExactly(a: string, b: string)
    ensures SameName(a, b) <==>
              |a| == |b| && forall i :: 0 <= i < |a| ==>
                || a[i] == b[i]
                || ('A' <= a[i] <= 'Z' && b[i] as int - 'a' as int == a[i] as int - 'A' as int)
                || ('A' <= b[i] <= 'Z' && a[i] as int - 'a' as int == b[i] as int - 'A' as int)
  {
    if |a| == |b| {
      forall i | 0 <= i < |a|
        ensures Lower(a[i]) == Lower(b[i]) <==>
                  || a[i] == b[i]
                  || ('A' <= a[i] <= 'Z' && b[i] as int - 'a' as int == a[i] as int - 'A' as int)
                  || ('A' <= b[i] <= 'Z' && a[i] as int - 'a' as int == b[i] as int - 'A' as int)
      {
        SameLetter(a[i], b[i]);
      }
    }
  }

  lemma SameLetter(a: char, b: char)
    ensures Lower(a) == Lower(b) <==>
              || a == b
              || ('A' <= a <= 'Z' && b as int - 'a' as int == a as int - 'A' as int)
              || ('A' <= b <= 'Z' && a as int - 'a' as int == b as int - 'A' as int)
  {
  }

  lemma {:induction false} FoundInTable(keys: seq<Key>, j: nat, name: string, i: nat)
    requires Sound(keys) && i <= j < |keys| && SameName(keys[j].name, name)
    ensures Find(keys, name, i) == Some(j)
    decreases j - i
  {
    if i < j {
      NotBothNamed(keys[i].name, keys[j].name, name);
      FoundInTable(keys, j, name, i + 1);
    }
  }

  lemma NotBothNamed(a: string, b: string, name: string)
    requires SameName(b, name)
    ensures SameName(a, name) ==> SameName(a, b)
  {
  }

  lemma {:induction false} NameInAnyCase(a: string, name: string)
    requires WellNamed(a) && SameName(a, name)
    ensures WellNamed(name) && name[0] != ';' && Trimmed(name) == name
  {
    forall i | 0 <= i < |name|
      ensures (name[i] == '=' ==> a[i] == '=') && (name[i] == ';' ==> a[i] == ';')
      ensures IsSpace(name[i]) ==> IsSpace(a[i])
    {
      assert Lower(a[i]) == Lower(name[i]);
    }
    TrimmedName(name);
  }

  /** A name of the table in any case of letters, '=' and any text: the text is stored under the key the name stands
      for, which for an alias is another one. */
  lemma {:induction false} ParseMeant(keys: seq<Key>, j: nat, name: string, raw: string)
    requires Sound(keys) && j < |keys| && SameName(keys[j].name, name)
    ensures var v := ValueOf(raw);
            Parse(keys, name + "=" + raw)
            == if v.1.None? then Parsed([(Meant(keys, j), v.0)], true)
               else Then((Meant(keys, j), v.0), Parse(keys, v.1.value))
  {
    hide ValueOf, Trimmed, SameName;
    var t := name + "=" + raw;
    NameInAnyCase(keys[j].name, name);
    IndexOfIn(name, '=', raw);
    assert t[..|name|] == name && t[|name| + 1..] == raw;
    FoundInTable(keys, j, name, 0);
    assert t[0] == name[0];
  }

  lemma {:induction false} LeftTrimmedJoins(a: string, b: string)
    requires LeftTrimmed(a) != ""
    ensures LeftTrimmed(a + b) == LeftTrimmed(a) + b
  {
    if IsSpace(a[0]) {
      assert (a + b)[1..] == a[1..] + b;
      LeftTrimmedJoins(a[1..], b);
    }
  }

  /** A value without braces goes up to the next semicolon, and is stored without the white space around it. */
  lemma {:induction false} PlainValue(v: string, rest: string)
    requires ';' !in v && LeftTrimmed(v) != "" && LeftTrimmed(v)[0] != '{'
    ensures ValueOf(v + ";" + rest) == (Trimmed(v), Some(rest)) && ValueOf(v) == (Trimmed(v), None)
  {
    hide Trimmed, LeftTrimmed;
    var s, raw := LeftTrimmed(v), v + ";" + rest;
    assert raw == v + (";" + rest);
    LeftTrimmedJoins(v, ";" + rest);
    LeftTrimmedKeeps(v, ';');
    assert LeftTrimmed(raw) == s + ";" + rest;
    IndexOfIn(s, ';', rest);
    assert (s + ";" + rest)[..|s|] == s && (s + ";" + rest)[|s| + 1..] == rest;
    IndexOfNone(s, ';');
    TrimmedIsOfLeft(v);
  }

  lemma {:induction false} LeftTrimmedKeeps(v: string, c: char)
    requires c !in v
    ensures c !in LeftTrimmed(v)
  {
    if v != "" && IsSpace(v[0]) {
      LeftTrimmedKeeps(v[1..], c);
    }
  }

  lemma {:induction false} TrimmedIsOfLeft(v: string)
    ensures Trimmed(LeftTrimmed(v)) == Trimmed(v)
  {
    LeftTrimmedStart(v);
  }

  /** A key that is not in the table is passed over with its value, up to the next semicolon. */
  lemma {:induction false} ParseUnknown(keys: seq<Key>, name: string, raw: string, rest: string)
    requires name != "" && name[0] != ';' && '=' !in name && ';' !in raw
    requires forall j :: 0 <= j < |keys| ==> !SameName(keys[j].name, Trimmed(name))
    ensures Parse(keys, name + "=" + raw + ";" + rest) == Parse(keys, rest)
    ensures Parse(keys, name + "=" + raw) == Parsed([], true)
  {
    hide Trimmed, SameName, ValueOf, Parse;
    UnknownPassed(keys, name, raw);
    IndexOfNone(raw, ';');
    assert name + "=" + raw + ";" + rest == name + "=" + (raw + ";" + rest);
    UnknownPassed(keys, name, raw + ";" + rest);
    IndexOfIn(raw, ';', rest);
    assert (raw + ";" + rest)[|raw| + 1..] == rest;
  }

  lemma {:induction false} UnknownPassed(keys: seq<Key>, name: string, raw: string)
    requires name != "" && name[0] != ';' && '=' !in name
    requires forall j :: 0 <= j < |keys| ==> !SameName(keys[j].name, Trimmed(name))
    ensures Parse(keys, name + "=" + raw)
            == match IndexOf(raw, ';') case None => Parsed([], true) case Some(j) => Parse(keys, raw[j + 1..])
  {
    hide Trimmed, SameName, ValueOf;
    var t := name + "=" + raw;
    IndexOfIn(name, '=', raw);
    assert t[..|name|] == name && t[|name| + 1..] == raw && t[0] == name[0];
  }

  /** A semicolon in front of a key means nothing; a part without '=' ends the parsing, and the parser says so. */
  lemma {:induction false} ParseWithoutKey(keys: seq<Key>, t: string)
    ensures Parse(keys, ";" + t) == Parse(keys, t)
    ensures t != "" && t[0] != ';' && '=' !in t ==> Parse(keys, t) == Parsed([], false)
  {
    assert (";" + t)[1..] == t;
    if '=' !in t {
      IndexOfNone(t, '=');
    }
  }

  /** The first entry of a printed text, whatever its value. */
  lemma {:induction false} ParseAny(keys: seq<Key>, p: Pair, tail: string)
    requires Sound(keys) && p.0 < |keys| && keys[p.0].alias.None?
    ensures var v := ValueOf(Quoted(p.1) + tail);
            Parse(keys, Entry(keys, p) + tail)
            == if v.1.None? then Parsed([(p.0, v.0)], true) else Then((p.0, v.0), Parse(keys, v.1.value))
  {
    hide ValueOf, Quoted, Sound, Parse;
    assert Entry(keys, p) + tail == keys[p.0].name + "=" + (Quoted(p.1) + tail);
    ParseNamed(keys, p.0, Quoted(p.1) + tail);
  }

  /** A '}' in a printed value is not doubled, so it does not come through. */
  lemma BraceIsLost(keys: seq<Key>)
    requires Sound(keys) && |keys| > 0 && keys[0].alias.None?
    ensures Parse(keys, Print(keys, [(0, "a }b")])) != Parsed([(0, "a }b")], true)
  {
    hide Sound, Trimmed, Parse, Print;
    var v := "a }b";
    assert v[2] == '}' && v[1] == ' ' && v[|v| - 1] == 'b';
    assert !PrintableLast(v);
    var pairs: seq<Pair> := [(0, v)];
    assert pairs[0].1 == v;
    PrintParseExactly(keys, pairs);
  }
}
