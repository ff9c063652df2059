/** The buffer MADB_DsnToString prints into: what gets into it, when a write stays inside, and what is read back. */
module PrintBuffer {
  import opened Common
  import opened ConnString

  const BUFFER := 1024
  const NUL := 0 as char

  lemma AllKeysMore(keys: seq<Key>, pairs: seq<Pair>, p: Pair)
    ensures AllKeys(keys, pairs + [p]) <==> AllKeys(keys, pairs) && AllKeys(keys, [p])
  {
    var all := pairs + [p];
    assert forall i :: 0 <= i < |pairs| ==> all[i] == pairs[i];
    assert all[|pairs|] == p == [p][0];
  }

  lemma {:induction false} PrintAppends(keys: seq<Key>, pairs: seq<Pair>, p: Pair)
    requires AllKeys(keys, pairs) && AllKeys(keys, [p])
    ensures AllKeys(keys, pairs + [p])
    ensures p.0 < |keys|
    ensures Print(keys, pairs + [p]) == Print(keys, pairs) + ((if pairs == [] then "" else ";") + Entry(keys, p))
    decreases |pairs|
  {
    hide Entry;
    AllKeysMore(keys, pairs, p);
    assert [p][0] == p;
    if pairs == [] {
      assert pairs + [p] == [p];
    } else {
      assert (pairs + [p])[1..] == pairs[1..] + [p];
      PrintAppends(keys, pairs[1..], p);
      PrintAppendsNext(keys, pairs, p);
    }
  }

  lemma PrintFirst(keys: seq<Key>, p: Pair, rest: seq<Pair>)
    requires AllKeys(keys, [p] + rest)
    ensures AllKeys(keys, rest) && p.0 < |keys|
    ensures Print(keys, [p] + rest) == Entry(keys, p) + if rest == [] then "" else ";" + Print(keys, rest)
  {
    hide Entry;
    var all := [p] + rest;
    assert all[0] == p && all[1..] == rest;
    assert forall i :: 0 <= i < |rest| ==> rest[i] == all[i + 1];
  }

  lemma PrintAppendsNext(keys: seq<Key>, pairs: seq<Pair>, p: Pair)
    requires pairs != [] && AllKeys(keys, pairs + [p]) && AllKeys(keys, pairs) && p.0 < |keys|
    requires AllKeys(keys, pairs[1..] + [p]) && AllKeys(keys, pairs[1..])
    requires Print(keys, pairs[1..] + [p])
             == Print(keys, pairs[1..]) + ((if pairs[1..] == [] then "" else ";") + Entry(keys, p))
    ensures Print(keys, pairs + [p]) == Print(keys, pairs) + (";" + Entry(keys, p))
  {
    hide Entry, AllKeys, Print;
    var first, rest := pairs[0], pairs[1..];
    assert pairs + [p] == [first] + (rest + [p]) && pairs == [first] + rest;
    PrintFirst(keys, first, rest + [p]);
    PrintFirst(keys, first, rest);
    if rest == [] {
      Nothing(keys);
    } else {
      Joins(Entry(keys, first), ";", Print(keys, rest), ";" + Entry(keys, p));
    }
  }

  lemma Nothing(keys: seq<Key>)
    ensures Print(keys, []) == ""
  {
  }

  lemma Joins(a: string, b: string, c: string, d: string)
    ensures a + (b + (c + d)) == (a + (b + c)) + d
  {
  }

  lemma PrintedIsLonger(keys: seq<Key>, pairs: seq<Pair>, p: Pair)
    requires AllKeys(keys, pairs + [p])
    ensures AllKeys(keys, pairs) && |Print(keys, pairs)| < |Print(keys, pairs + [p])|
  {
    hide Print;
    AllKeysMore(keys, pairs, p);
    PrintAppends(keys, pairs, p);
  }

  /** Every entry but the last one ends where the next write still starts inside the buffer, or just behind it. */
  predicate Inside(keys: seq<Key>, pairs: seq<Pair>)
    requires AllKeys(keys, pairs)
  {
    pairs == [] || (AllKeys(keys, pairs[..|pairs| - 1]) && |Print(keys, pairs[..|pairs| - 1])| <= BUFFER)
  }

  lemma {:induction false} EarlierInside(keys: seq<Key>, pairs: seq<Pair>, n: nat)
    requires AllKeys(keys, pairs) && n <= |pairs|
    ensures AllKeys(keys, pairs[..n]) && |Print(keys, pairs[..n])| <= |Print(keys, pairs)|
    decreases |pairs| - n
  {
    hide Print;
    if n == |pairs| {
      assert pairs[..n] == pairs;
    } else {
      EarlierInside(keys, pairs, n + 1);
      assert pairs[..n + 1] == pairs[..n] + [pairs[n]];
      PrintedIsLonger(keys, pairs[..n], pairs[n]);
    }
  }

  /** Any value that does not fit, printed with something behind it, leads outside. */
  lemma LongValueLeaves(keys: seq<Key>, i: nat, v: string, after: Pair)
    requires AllKeys(keys, [(i, v), after]) && |v| >= BUFFER
    ensures !Inside(keys, [(i, v), after])
  {
    var first: seq<Pair> := [(i, v)];
    assert [(i, v), after][..1] == first;
    assert [(i, v), after][0] == (i, v);
    assert first[0] == (i, v) && Print(keys, first) == Entry(keys, (i, v)) + "";
    assert |Entry(keys, (i, v))| >= |v| + 1;
  }

  /** The text in the buffer: all of it, or as much as leaves room for the NUL. */
  function Fitting(text: string): string { if |text| < BUFFER then text else text[..BUFFER - 1] }

  ghost predicate HoldsText(b: array<char>, text: string)
    reads b
  {
    b.Length == BUFFER && b[..|Fitting(text)|] == Fitting(text) && b[|Fitting(text)|] == NUL
  }

  /** snprintf(b + at, size, ...): at most size - 1 characters and a NUL, nothing at all for size 0. */
  method WriteAt(b: array<char>, at: nat, size: nat, text: string)
    requires at + size <= b.Length
    modifies b
    ensures b[..at] == old(b[..at])
    ensures size == 0 ==> b[..] == old(b[..])
    ensures size > 0 ==> var n := Min(|text|, size - 1); b[at..at + n] == text[..n] && b[at + n] == NUL
  {
    if size > 0 {
      var n := Min(|text|, size - 1);
      var i := 0;
      while i < n
        invariant 0 <= i <= n && b[..at] == old(b[..at]) && b[at..at + i] == text[..i]
      {
        b[at + i] := text[i];
        i := i + 1;
      }
      b[at + n] := NUL;
    }
  }

  lemma FittingMore(text: string, more: string)
    ensures |text| < BUFFER ==>
              Fitting(text + more) == text + more[..Min(|more|, BUFFER - 1 - |text|)]
    ensures |text| >= BUFFER ==> Fitting(text + more) == Fitting(text)
  {
  }

  /** One entry behind a text that ends inside the buffer or just behind it. */
  method WriteEntry(b: array<char>, ghost text: string, total: nat, more: string)
    requires HoldsText(b, text) && total == |text| <= BUFFER
    modifies b
    ensures HoldsText(b, text + more)
  {
    FittingMore(text, more);
    WriteAt(b, total, BUFFER - total, more);
    if total < BUFFER {
      var n := Min(|more|, BUFFER - 1 - total);
      assert b[..total + n] == b[..total] + b[total..total + n];
    }
  }

  /** The printing loop; `inside` is false if it comes to an entry that would be written outside the buffer, because
      the number of characters left wraps around. */
  method PrintInto(keys: seq<Key>, pairs: seq<Pair>) returns (b: array<char>, total: nat, inside: bool)
    requires AllKeys(keys, pairs)
    ensures inside <==> Inside(keys, pairs)
    ensures inside ==> total == |Print(keys, pairs)| && HoldsText(b, Print(keys, pairs))
  {
    hide Print, Entry;
    b := new char[BUFFER](_ => NUL);
    total := 0;
    NothingPrinted(keys);
    for i := 0 to |pairs|
      invariant AllKeys(keys, pairs[..i]) && total == |Print(keys, pairs[..i])| && HoldsText(b, Print(keys, pairs[..i]))
      invariant fresh(b)
      invariant i > 0 ==> AllKeys(keys, pairs[..i - 1]) && |Print(keys, pairs[..i - 1])| <= BUFFER
    {
      if total > BUFFER {
        EarlierInside(keys, pairs[..|pairs| - 1], i);
        assert pairs[..|pairs| - 1][..i] == pairs[..i];
        return b, total, false;
      }
      assert pairs[..i + 1] == pairs[..i] + [pairs[i]];
      AllKeysMore(keys, pairs[..i], pairs[i]);
      PrintAppends(keys, pairs[..i], pairs[i]);
      PrintedIsNothing(keys, pairs[..i]);
      var more := (if total > 0 then ";" else "") + Entry(keys, pairs[i]);
      assert Print(keys, pairs[..i + 1]) == Print(keys, pairs[..i]) + more;
      WriteEntry(b, Print(keys, pairs[..i]), total, more);
      total := total + |more|;
    }
    assert pairs[..|pairs|] == pairs;
    inside := true;
  }

  lemma NothingPrinted(keys: seq<Key>)
    ensures Print(keys, []) == "" && Fitting("") == ""
  {
  }

  lemma PrintedIsNothing(keys: seq<Key>, pairs: seq<Pair>)
    requires AllKeys(keys, pairs)
    ensures Print(keys, pairs) == "" <==> pairs == []
  {
  }

  // ---------- What is read back ----------

  /** A value that is cut is not read as itself. */
  lemma CutValueIsLost(v: string, s: string)
    requires s <= Quoted(v) && s != Quoted(v)
    ensures ValueOf(s).0 != v
  {
    hide Trimmed, LeftTrimmed, IndexOf, Unbraced;
    LeftTrimmedShorter(s);
    var t := LeftTrimmed(s);
    if Special(v) {
      CutBraced(v, s);
    } else if t != "" && t[0] == '{' {
      UnbracedShorter(t[1..]);
      TrimmedShorter(Unbraced(t[1..]).0);
    } else {
      TrimmedShorter(t);
      if IndexOf(t, ';').Some? {
        TrimmedShorter(t[..IndexOf(t, ';').value]);
      }
    }
  }

  lemma CutBraced(v: string, s: string)
    requires Special(v) && s <= "{" + v + "}" && s != "{" + v + "}"
    ensures ValueOf(s).0 != v
  {
    hide Trimmed, IndexOf, Unbraced;
    if s == "" {
      TrimmedShorter("");
    } else {
      assert s[0] == '{';
      assert LeftTrimmed(s) == s;
      assert |s[1..]| <= |v|;
      UnbracedShorter(s[1..]);
      TrimmedShorter(Unbraced(s[1..]).0);
    }
  }

  /** A printed text that is cut anywhere does not give back the list it was printed from. */
  lemma {:induction false} CutTextIsLost(keys: seq<Key>, pairs: seq<Pair>, t: string)
    requires Sound(keys) && AllKeys(keys, pairs) && t <= Print(keys, pairs) && t != Print(keys, pairs)
    ensures Parse(keys, t) != Parsed(pairs, true)
    decreases |pairs|
  {
    hide Sound, Entry, ValueOf, Parse, Printable, EndsBraced;
    var p, rest := pairs[0], pairs[1..];
    var entry := Entry(keys, p);
    var tail := if rest == [] then "" else ";" + Print(keys, rest);
    assert Print(keys, pairs) == entry + tail;
    if |t| < |entry| {
      assert t <= entry;
      CutEntryIsLost(keys, p, t);
    } else {
      var cut := t[|entry|..];
      assert t == entry + cut;
      assert cut <= tail && cut != tail;
      CutTailIsLost(keys, pairs, cut);
    }
  }

  lemma CutTailIsLost(keys: seq<Key>, pairs: seq<Pair>, cut: string)
    requires Sound(keys) && AllKeys(keys, pairs) && |pairs| > 1
    requires cut <= ";" + Print(keys, pairs[1..]) && cut != ";" + Print(keys, pairs[1..])
    ensures Parse(keys, Entry(keys, pairs[0]) + cut) != Parsed(pairs, true)
    decreases |pairs|, 0
  {
    hide Sound, Entry, ValueOf, Parse, Printable, EndsBraced, Print;
    var p, rest := pairs[0], pairs[1..];
    var v := ValueOf(Quoted(p.1) + cut);
    ParseAny(keys, p, cut);
    if v.0 == p.1 && v.1.Some? {
      ReadBack(p.1, cut);
      QuotedValue(p.1, cut);
      var onwards := if cut == "" then "" else cut[1..];
      assert v.1.value == onwards;
      assert onwards <= Print(keys, rest) && onwards != Print(keys, rest) by {
        PrintedIsNothing(keys, rest);
        assert (";" + Print(keys, rest))[1..] == Print(keys, rest);
      }
      CutTextIsLost(keys, rest, onwards);
    }
  }

  lemma CutEntryIsLost(keys: seq<Key>, p: Pair, t: string)
    requires Sound(keys) && p.0 < |keys| && keys[p.0].alias.None?
    requires t <= Entry(keys, p) && t != Entry(keys, p)
    ensures Parse(keys, t).stores == [] || Parse(keys, t).stores[0].1 != p.1
  {
    hide Sound, ValueOf, Quoted, Parse;
    var name := keys[p.0].name;
    NameOf(keys, p.0);
    if |t| <= |name| {
      assert t <= name;
      NoKey(keys, t);
    } else {
      var s := t[|name| + 1..];
      assert t == name + "=" + s;
      assert Entry(keys, p)[|name| + 1..] == Quoted(p.1);
      CutValueIsLost(p.1, s);
      ParseNamed(keys, p.0, s);
    }
  }

  lemma NoKey(keys: seq<Key>, t: string)
    requires '=' !in t && (t != "" ==> t[0] != ';')
    ensures Parse(keys, t).stores == []
  {
    IndexOfNone(t, '=');
  }

  /** What is in the buffer is read back as the list it was printed from if and only if all of it fits with its NUL
      and every value comes through. */
  lemma FittingIsRead(keys: seq<Key>, pairs: seq<Pair>)
    requires Sound(keys) && AllKeys(keys, pairs)
    ensures Parse(keys, Fitting(Print(keys, pairs))) == Parsed(pairs, true) <==>
              && |Print(keys, pairs)| < BUFFER
              && forall i :: 0 <= i < |pairs| ==>
                   if i + 1 < |pairs| then Printable(pairs[i].1) else PrintableLast(pairs[i].1)
  {
    hide Sound, Parse, Print, Printable, EndsBraced;
    PrintParseExactly(keys, pairs);
    if |Print(keys, pairs)| >= BUFFER {
      CutTextIsLost(keys, pairs, Fitting(Print(keys, pairs)));
    }
  }
}
