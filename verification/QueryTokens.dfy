/** The tokenizer of query texts: where tokens start, with quoted literals and comments passed over. */
module QueryTokens {
  import opened Common

  /** What the SQL mode of the connection says about quotes. */
  datatype Mode = Mode(noBackslashEscape: bool, ansiQuotes: bool)

  predicate IsQuote(c: char) { c == '"' || c == '\'' || c == '`' }

  /** Characters at which the reading of a token stops. */
  predicate Stops(c: char) {
    || c == '?' || IsQuote(c) || c == ' ' || c == '\t' || c == '\r' || c == '\n'
    || c == '-' || c == '#' || c == '/' || c == ';'
  }

  /** Whether a backslash in the literal takes the meaning from the character after it. */
  predicate Escapes(m: Mode, quote: char) { !(m.noBackslashEscape || quote == '`' || (m.ansiQuotes && quote == '"')) }

  // ---------- The elements of a text ----------

  function IndexFrom(t: string, i: nat, c: char): (k: nat)
    ensures i <= |t| ==> i <= k <= |t|
    ensures k < |t| ==> t[k] == c
    ensures forall j :: i <= j < k && j < |t| ==> t[j] != c
    decreases |t| - i
  {
    if i >= |t| then i else if t[i] == c then i else IndexFrom(t, i + 1, c)
  }

  /** The place of the next end of a comment, or the end of the text. */
  function CloseFrom(t: string, i: nat): (k: nat)
    ensures i <= |t| ==> i <= k <= |t|
    ensures k < |t| ==> k + 1 < |t| && t[k] == '*' && t[k + 1] == '/'
    decreases |t| - i
  {
    if i >= |t| then i
    else if t[i] == '*' && i + 1 < |t| && t[i + 1] == '/' then i
    else CloseFrom(t, i + 1)
  }

  predicate Pair(t: string, i: nat, a: char, b: char) { i + 1 < |t| && t[i] == a && t[i + 1] == b }

  predicate CommentAt(t: string, i: nat) { i < |t| && (t[i] == '#' || Pair(t, i, '-', '-') || Pair(t, i, '/', '*')) }

  function CommentEnd(t: string, i: nat): (e: nat)
    requires CommentAt(t, i)
    ensures i < e <= |t|
  {
    if Pair(t, i, '/', '*') then
      var k := CloseFrom(t, i + 2);
      if k < |t| then k + 2 else |t|
    else
      var k := IndexFrom(t, if t[i] == '#' then i + 1 else i + 2, '\n');
      if k < |t| then k + 1 else |t|
  }

  /** The place of the quote that closes a literal, or the end of the text. */
  function QuoteEnd(t: string, i: nat, quote: char, escapes: bool): (e: nat)
    requires i <= |t|
    ensures i <= e <= |t| && (e < |t| ==> t[e] == quote)
    decreases |t| - i
  {
    if i == |t| || t[i] == quote then i
    else if escapes && t[i] == '\\' then if i + 1 == |t| then |t| else QuoteEnd(t, i + 2, quote, escapes)
    else QuoteEnd(t, i + 1, quote, escapes)
  }

  function LiteralEnd(t: string, m: Mode, i: nat): (e: nat)
    requires i < |t|
    ensures i < e <= |t|
  {
    QuoteEnd(t, i + 1, t[i], Escapes(m, t[i]))
  }

  /** White space or a comment. */
  predicate Blank(t: string, i: nat)
    requires i < |t|
  {
    IsSpace(t[i]) || CommentAt(t, i)
  }

  /** An element is a comment, a literal with its quotes, or one other character. */
  function NextElement(t: string, m: Mode, i: nat): (e: nat)
    requires i < |t|
    ensures i < e <= |t|
  {
    if CommentAt(t, i) then CommentEnd(t, i)
    else if IsQuote(t[i]) then
      var e := LiteralEnd(t, m, i);
      if e < |t| then e + 1 else |t|
    else i + 1
  }

  /** Where the elements start, from place `i` on. */
  function Elements(t: string, m: Mode, i: nat): (s: seq<nat>)
    ensures Within(t, s)
    decreases |t| - i
  {
    if i >= |t| then [] else [i] + Elements(t, m, NextElement(t, m, i))
  }

  /** Every literal is closed. */
  predicate Closed(t: string, m: Mode, i: nat)
    decreases |t| - i
  {
    i >= |t| ||
    ((!CommentAt(t, i) && IsQuote(t[i]) ==> LiteralEnd(t, m, i) < |t|) && Closed(t, m, NextElement(t, m, i)))
  }

  predicate Within(t: string, s: seq<nat>) { forall i :: 0 <= i < |s| ==> s[i] < |t| }

  predicate Breaks(t: string, e: nat)
    requires e < |t|
  {
    !Blank(t, e) && Stops(t[e])
  }

  /** Whether a token is being read after the elements: '?' and ';' are complete, comments and most white space end
      a token, but vertical tabs and form feeds do not. */
  predicate Reading(t: string, els: seq<nat>)
    requires Within(t, els)
  {
    els != [] &&
    var k := |els| - 1;
    if CommentAt(t, els[k]) then false
    else if Stops(t[els[k]]) then !IsSpace(t[els[k]]) && t[els[k]] != '?' && t[els[k]] != ';'
    else if IsSpace(t[els[k]]) then Reading(t, els[..k])
    else true
  }

  /** The elements that start a token. */
  function Starts(t: string, els: seq<nat>): seq<nat>
    requires Within(t, els)
  {
    if els == [] then []
    else
      var k := |els| - 1;
      Starts(t, els[..k]) + if !Blank(t, els[k]) && (Stops(t[els[k]]) || !Reading(t, els[..k])) then [els[k]] else []
  }

  // ---------- Skipping ----------

  /** StripLeadingComments: passes over one comment; the place and the remaining length change together. */
  method StripLeadingComments(t: string, p: nat, length: nat) returns (q: nat, left: nat)
    requires p + length == |t|
    ensures q + left == |t|
    ensures q == if CommentAt(t, p) then CommentEnd(t, p) else p
  {
    if length == 0 {
      return p, length;
    }
    var found, closing := p, 1;
    if Pair(t, p, '-', '-') {
      found := IndexFrom(t, p + 2, '\n');
    } else if t[p] == '#' {
      found := IndexFrom(t, p + 1, '\n');
    } else if Pair(t, p, '/', '*') {
      found, closing := CloseFrom(t, p + 2), 2;
    } else {
      return p, length;
    }
    if found < |t| {
      q := found + closing;
      left := length - (q - p);
    } else {
      q, left := p + length, 0;
    }
  }

  ghost predicate AllBlank(t: string, els: seq<nat>) { forall i :: 0 <= i < |els| ==> els[i] < |t| && Blank(t, els[i]) }

  /** From `p` to `q` there are just the blank elements `skipped`. */
  ghost predicate Skipped(t: string, m: Mode, p: nat, q: nat, skipped: seq<nat>) {
    && p <= q && Elements(t, m, p) == skipped + Elements(t, m, q) && AllBlank(t, skipped)
    && (q == p <==> skipped == []) && (skipped != [] ==> skipped[0] == p)
    && (Closed(t, m, p) ==> Closed(t, m, q))
  }

  lemma SkipNothing(t: string, m: Mode, p: nat)
    ensures Skipped(t, m, p, p, [])
  {
  }

  lemma SkipOne(t: string, m: Mode, p: nat, q: nat, skipped: seq<nat>)
    requires Skipped(t, m, p, q, skipped) && q < |t| && Blank(t, q)
    ensures Skipped(t, m, p, NextElement(t, m, q), skipped + [q])
  {
    hide NextElement, Blank, Elements, Closed;
    ElementsHere(t, m, q);
    assert skipped + ([q] + Elements(t, m, NextElement(t, m, q)))
           == (skipped + [q]) + Elements(t, m, NextElement(t, m, q));
  }

  /** SkipSpacesAndComments: stops at the end, or at something that is neither. */
  method SkipSpacesAndComments(t: string, m: Mode, p: nat, length: nat)
    returns (q: nat, left: nat, ghost skipped: seq<nat>)
    requires p + length == |t|
    ensures p <= q && q + left == |t|
    ensures q < |t| ==> !Blank(t, q)
    ensures Skipped(t, m, p, q, skipped)
  {
    hide CommentEnd, LiteralEnd, Skipped;
    q, left, skipped := p, length, [];
    SkipNothing(t, m, p);
    var prev: int := -1;
    while q < |t| && q != prev
      invariant p <= q && q + left == |t| && prev <= q
      invariant prev == q && q < |t| ==> !Blank(t, q)
      invariant Skipped(t, m, p, q, skipped)
      decreases |t| - q, if q == prev then 0 else 1
    {
      prev := q;
      q, left := StripLeadingComments(t, q, left);
      if q != prev {
        SkipOne(t, m, p, prev, skipped);
        skipped := skipped + [prev];
      }
      var notTrimmed := q;
      while q < |t| && IsSpace(t[q])
        invariant notTrimmed <= q <= |t|
        invariant Skipped(t, m, p, q, skipped)
      {
        SkipOne(t, m, p, q, skipped);
        skipped := skipped + [q];
        q := q + 1;
      }
      left := left - (q - notTrimmed);
    }
  }

  method SkipQuotedString(t: string, p: nat, quote: char) returns (e: nat)
    requires p <= |t|
    ensures e == QuoteEnd(t, p, quote, true)
  {
    e := p;
    while e < |t| && t[e] != quote
      invariant p <= e <= |t| && QuoteEnd(t, p, quote, true) == QuoteEnd(t, e, quote, true)
    {
      if t[e] == '\\' {
        e := e + 1;
        if e == |t| {
          break;
        }
      }
      e := e + 1;
    }
  }

  method SkipQuotedStringNoEscapes(t: string, p: nat, quote: char) returns (e: nat)
    requires p <= |t|
    ensures e == QuoteEnd(t, p, quote, false)
  {
    e := p;
    while e < |t| && t[e] != quote
      invariant p <= e <= |t| && QuoteEnd(t, p, quote, false) == QuoteEnd(t, e, quote, false)
    {
      e := e + 1;
    }
  }

  // ---------- Tokens ----------

  const QUERY_LEN_FOR_POOR_MAN_PARSING := 32768

  /** Of long texts that are one command without parameters, only the first two tokens are looked for. */
  predicate PoorMan(t: string) { |t| > QUERY_LEN_FOR_POOR_MAN_PARSING && ';' !in t && '?' !in t }

  /** All tokens: where they start, and the end of the text if blanks come last. */
  function TokenStarts(t: string, m: Mode): seq<nat> {
    var els := Elements(t, m, 0);
    Starts(t, els) + if els != [] && Blank(t, els[|els| - 1]) && !Reading(t, els) then [|t|] else []
  }

  predicate Increasing(s: seq<nat>) { forall i, j :: 0 <= i < j < |s| ==> s[i] < s[j] }

  /** How far the tokenizer is: it has gone over the elements `done`, and is at place `p`. */
  ghost predicate Stands(t: string, m: Mode, done: seq<nat>, p: nat, tokens: seq<nat>, reading: bool) {
    && Within(t, done) && Closed(t, m, p) && Elements(t, m, 0) == done + Elements(t, m, p)
    && tokens == Starts(t, done)
    && (if reading then Reading(t, done)
        else if Reading(t, done) then p < |t| && Stops(t[p])
        else done == [] || !Blank(t, done[|done| - 1]))
  }

  lemma StandsAtStart(t: string, m: Mode)
    ensures Closed(t, m, 0) ==> Stands(t, m, [], 0, [], false)
  {
  }

  /** A character that neither stops the token nor starts anything else. */
  lemma PassOver(t: string, m: Mode, done: seq<nat>, p: nat, tokens: seq<nat>)
    requires Stands(t, m, done, p, tokens, true) && p < |t| && !Stops(t[p])
    ensures Stands(t, m, done + [p], p + 1, tokens, true)
  {
    hide NextElement, CommentAt, Stops, Starts, Reading, LiteralEnd, Blank, Elements, Closed;
    PlainElement(t, m, p);
    ElementsHere(t, m, p);
    PassedOver(t, done, p);
    assert done + ([p] + Elements(t, m, p + 1)) == (done + [p]) + Elements(t, m, p + 1);
  }

  lemma ElementsHere(t: string, m: Mode, p: nat)
    requires p < |t|
    ensures Elements(t, m, p) == [p] + Elements(t, m, NextElement(t, m, p))
    ensures Closed(t, m, p) ==> Closed(t, m, NextElement(t, m, p))
  {
  }

  lemma PassedOver(t: string, done: seq<nat>, p: nat)
    requires Within(t, done) && p < |t| && !Stops(t[p]) && Reading(t, done)
    ensures Within(t, done + [p]) && Reading(t, done + [p]) && Starts(t, done + [p]) == Starts(t, done)
  {
    assert (done + [p])[..|done|] == done;
  }

  /** The next character stops the token. */
  lemma TokenStops(t: string, m: Mode, done: seq<nat>, p: nat, tokens: seq<nat>)
    requires Stands(t, m, done, p, tokens, true) && p < |t| && Stops(t[p])
    ensures Stands(t, m, done, p, tokens, false)
  {
  }

  lemma PlainElement(t: string, m: Mode, p: nat)
    requires p < |t| && !Stops(t[p])
    ensures !CommentAt(t, p) && NextElement(t, m, p) == p + 1
  {
  }

  /** A token starts after the blanks. */
  lemma TokenStarted(t: string, m: Mode, done: seq<nat>, p: nat, tokens: seq<nat>, skipped: seq<nat>, q: nat,
      next: nat, reading: bool)
    requires Stands(t, m, done, p, tokens, false) && p <= q < |t| && !Blank(t, q)
    requires Skipped(t, m, p, q, skipped)
    requires IsQuote(t[q]) ==> LiteralEnd(t, m, q) < |t| ==> next == LiteralEnd(t, m, q) + 1 && reading
    requires !IsQuote(t[q]) ==> next == q + 1 && reading == (t[q] != '?' && t[q] != ';')
    ensures Stands(t, m, done + skipped + [q], next, tokens + [q], reading) && next <= |t|
  {
    hide Starts, Elements, Closed, LiteralEnd, Stops, Blank, CommentAt;
    var before := done + skipped;
    if skipped == [] {
      assert before == done;
    } else {
      BlanksStartNothing(t, done, skipped);
    }
    assert done + (skipped + Elements(t, m, q)) == before + Elements(t, m, q);
    QuotesBreak(t, q);
    OneElement(t, m, before, q);
  }

  lemma QuotesBreak(t: string, q: nat)
    requires q < |t|
    ensures IsQuote(t[q]) || t[q] == '?' || t[q] == ';' ==> Stops(t[q])
  {
  }

  /** Nothing but blanks is left. */
  lemma NothingLeft(t: string, m: Mode, done: seq<nat>, p: nat, tokens: seq<nat>, skipped: seq<nat>)
    requires Stands(t, m, done, p, tokens, false) && p < |t|
    requires Skipped(t, m, p, |t|, skipped)
    ensures tokens + [|t|] == TokenStarts(t, m)
  {
    hide Starts, Closed, LiteralEnd, Stops, Blank, CommentAt, NextElement;
    BlanksStartNothing(t, done, skipped);
    assert done + (skipped + []) == done + skipped;
    assert Elements(t, m, 0) == done + skipped;
  }

  lemma AllRead(t: string, m: Mode, done: seq<nat>, tokens: seq<nat>, reading: bool)
    requires Stands(t, m, done, |t|, tokens, reading)
    ensures tokens == TokenStarts(t, m)
  {
    assert Elements(t, m, |t|) == [];
    assert done + [] == done;
  }

  lemma {:induction false} StartsPrefix(t: string, a: seq<nat>, b: seq<nat>)
    requires Within(t, a + b)
    ensures Within(t, a) && Starts(t, a) <= Starts(t, a + b)
    decreases |b|
  {
    assert a == (a + b)[..|a|];
    if b == [] {
      assert a + b == a;
    } else {
      var k := |b| - 1;
      assert (a + b)[..|a + b| - 1] == a + b[..k];
      StartsPrefix(t, a, b[..k]);
    }
  }

  /** The tokens so far are the first ones. */
  lemma FirstTokens(t: string, m: Mode, done: seq<nat>, p: nat, tokens: seq<nat>, reading: bool)
    requires Stands(t, m, done, p, tokens, reading)
    ensures tokens <= TokenStarts(t, m)
  {
    StartsPrefix(t, done, Elements(t, m, p));
  }

  lemma {:induction false} BlanksStartNothing(t: string, done: seq<nat>, blanks: seq<nat>)
    requires Within(t, done) && AllBlank(t, blanks)
    requires !Reading(t, done) || (blanks != [] && Stops(t[blanks[0]]))
    ensures Within(t, done + blanks) && Starts(t, done + blanks) == Starts(t, done)
    ensures blanks != [] ==> !Reading(t, done + blanks)
    decreases |blanks|
  {
    if blanks == [] {
      assert done + blanks == done;
    } else {
      var k := |blanks| - 1;
      var before := done + blanks[..k];
      BlankBefore(t, done, blanks);
      if k == 0 {
        assert before == done;
      }
      assert (done + blanks)[..|done + blanks| - 1] == before;
    }
  }

  lemma {:induction false} BlankBefore(t: string, done: seq<nat>, blanks: seq<nat>)
    requires Within(t, done) && AllBlank(t, blanks) && blanks != []
    requires !Reading(t, done) || Stops(t[blanks[0]])
    ensures Within(t, done + blanks[..|blanks| - 1])
    ensures |blanks| > 1 ==> !Reading(t, done + blanks[..|blanks| - 1])
    ensures Starts(t, done + blanks[..|blanks| - 1]) == Starts(t, done)
    decreases |blanks|, 0
  {
    var k := |blanks| - 1;
    if k == 0 {
      assert done + blanks[..0] == done;
    } else {
      BlanksStartNothing(t, done, blanks[..k]);
    }
  }

  /** The element at which the blanks end. */
  lemma OneElement(t: string, m: Mode, done: seq<nat>, p: nat)
    requires Within(t, done) && p < |t| && !Blank(t, p) && Closed(t, m, p)
             && Elements(t, m, 0) == done + Elements(t, m, p)
    ensures Within(t, done + [p]) && Closed(t, m, NextElement(t, m, p))
    ensures Elements(t, m, 0) == (done + [p]) + Elements(t, m, NextElement(t, m, p))
    ensures Starts(t, done + [p]) == if Stops(t[p]) || !Reading(t, done) then Starts(t, done) + [p] else Starts(t, done)
    ensures Reading(t, done + [p]) <==> t[p] != '?' && t[p] != ';'
    ensures NextElement(t, m, p) == if IsQuote(t[p]) then LiteralEnd(t, m, p) + 1 else p + 1
    ensures IsQuote(t[p]) ==> LiteralEnd(t, m, p) < |t|
  {
    hide NextElement, Elements, Closed, LiteralEnd, CommentAt, Reading, Starts, Stops;
    ElementsHere(t, m, p);
    ElementEnds(t, m, p);
    StartsOne(t, done, p);
    assert done + ([p] + Elements(t, m, NextElement(t, m, p))) == (done + [p]) + Elements(t, m, NextElement(t, m, p));
  }

  lemma ElementEnds(t: string, m: Mode, p: nat)
    requires p < |t| && !Blank(t, p) && Closed(t, m, p)
    ensures NextElement(t, m, p) == if IsQuote(t[p]) then LiteralEnd(t, m, p) + 1 else p + 1
    ensures IsQuote(t[p]) ==> LiteralEnd(t, m, p) < |t|
  {
    hide LiteralEnd, CommentAt;
  }

  lemma StartsOne(t: string, done: seq<nat>, p: nat)
    requires Within(t, done) && p < |t| && !Blank(t, p)
    ensures Within(t, done + [p])
    ensures Starts(t, done + [p]) == if Stops(t[p]) || !Reading(t, done) then Starts(t, done) + [p] else Starts(t, done)
    ensures Reading(t, done + [p]) <==> t[p] != '?' && t[p] != ';'
  {
    hide CommentAt;
    assert (done + [p])[..|done|] == done;
  }

  /** The part of the loop that has found the start of a token: passes over a literal, and over one character. */
  method StartToken(t: string, m: Mode, p: nat) returns (q: nat, reading: bool)
    requires p < |t|
    ensures p < q
    ensures IsQuote(t[p]) && LiteralEnd(t, m, p) < |t| ==> q == LiteralEnd(t, m, p) + 1 && reading
    ensures !IsQuote(t[p]) ==> q == p + 1 && reading == (t[p] != '?' && t[p] != ';')
  {
    q, reading := p, true;
    if IsQuote(t[p]) {
      var quote := t[p];
      q := p + 1;
      var savePosition := q;
      if m.noBackslashEscape || quote == '`' || (m.ansiQuotes && quote == '"') {
        q := SkipQuotedStringNoEscapes(t, q, quote);
      } else {
        q := SkipQuotedString(t, q, quote);
      }
      if q >= |t| {
        q, reading := savePosition, false;
      }
    } else if t[p] == '?' || t[p] == ';' {
      reading := false;
    }
    q := q + 1;
  }

  /** ParseQuery: for every text the offsets increase and stay within the text; if its literals are closed, they are
      exactly the starts of its tokens, or the first two of them. */
  method ParseQuery(t: string, m: Mode) returns (tokens: seq<nat>)
    ensures Increasing(tokens) && forall i :: 0 <= i < |tokens| ==> tokens[i] <= |t|
    ensures Closed(t, m, 0) ==>
              tokens == if PoorMan(t) && |TokenStarts(t, m)| > 2 then TokenStarts(t, m)[..2] else TokenStarts(t, m)
  {
    hide Starts, Reading, Elements, Closed, Stops, CommentAt, LiteralEnd, Blank, Stands, TokenStarts, Skipped;
    var p, reading, poorMan := 0, false, PoorMan(t);
    ghost var done: seq<nat>, closed := [], Closed(t, m, 0);
    tokens := [];
    StandsAtStart(t, m);
    while p < |t|
      invariant Increasing(tokens) && forall i :: 0 <= i < |tokens| ==> tokens[i] < p && tokens[i] <= |t|
      invariant closed && p <= |t| ==> Stands(t, m, done, p, tokens, reading)
      invariant closed && p > |t| ==> tokens == TokenStarts(t, m)
      invariant poorMan ==> |tokens| <= 1 || (|tokens| == 2 && p > |t|)
      decreases |t| + 1 - p, if reading then 1 else 0
    {
      if !reading {
        var q, left, skipped := SkipSpacesAndComments(t, m, p, |t| - p);
        ghost var before := tokens;
        tokens := tokens + [q];
        if q == |t| {
          if closed {
            NothingLeft(t, m, done, p, before, skipped);
          }
          p := q + 1;
        } else {
          var next, r := StartToken(t, m, q);
          if closed {
            TokenStarted(t, m, done, p, before, skipped, q, next, r);
            FirstTokens(t, m, done + skipped + [q], next, tokens, r);
          }
          if poorMan && |tokens| == 2 {
            return;
          }
          done := done + skipped + [q];
          p, reading := next, r;
        }
      } else if Stops(t[p]) {
        if closed {
          TokenStops(t, m, done, p, tokens);
        }
        reading := false;
      } else {
        if closed {
          PassOver(t, m, done, p, tokens);
        }
        done := done + [p];
        p := p + 1;
      }
    }
    if closed && p == |t| {
      AllRead(t, m, done, tokens, reading);
    }
  }

  // ---------- What the starts of tokens are ----------

  lemma {:induction false} ElementsAscend(t: string, m: Mode, i: nat)
    ensures Increasing(Elements(t, m, i)) && forall k :: 0 <= k < |Elements(t, m, i)| ==> i <= Elements(t, m, i)[k]
    decreases |t| - i
  {
    hide NextElement;
    if i < |t| {
      ElementsAscend(t, m, NextElement(t, m, i));
    }
  }

  /** A start is an element that is neither white space nor a comment. Every such element that breaks a token is
      one (so no parameter marker, semicolon or literal is missed), and so is the first of all. */
  lemma {:induction false} StartsAre(t: string, els: seq<nat>)
    requires Within(t, els)
    ensures forall i :: 0 <= i < |Starts(t, els)| ==> Starts(t, els)[i] in els && !Blank(t, Starts(t, els)[i])
    ensures forall e :: e in els && Breaks(t, e) ==> e in Starts(t, els)
    ensures els != [] && !Blank(t, els[0]) ==> els[0] in Starts(t, els)
    decreases |els|
  {
    hide Stops, CommentAt, Blank;
    if els != [] {
      StartsAre(t, els[..|els| - 1]);
    }
  }

  /** No token starts within an element: in a literal after its opening quote, or in a comment. */
  lemma {:induction false} NothingInside(t: string, m: Mode, i: nat, e: nat)
    requires e in Elements(t, m, i)
    ensures e < |t| && forall x :: e < x < NextElement(t, m, e) ==> x !in Elements(t, m, i)
    decreases |t| - i
  {
    hide NextElement;
    if e == i {
      ElementsAscend(t, m, NextElement(t, m, i));
      AfterFirst(t, m, i);
    } else {
      NothingInside(t, m, NextElement(t, m, i), e);
      AfterFirst(t, m, i);
    }
  }

  lemma AfterFirst(t: string, m: Mode, i: nat)
    requires i < |t|
    ensures forall x :: x in Elements(t, m, i) <==> x == i || x in Elements(t, m, NextElement(t, m, i))
    ensures forall x :: x in Elements(t, m, NextElement(t, m, i)) ==> x >= NextElement(t, m, i)
  {
    hide NextElement;
    ElementsAscend(t, m, NextElement(t, m, i));
  }

  /** For texts whose literals are closed: every token offset before the end of the text is an element, so it lies
      in no comment and not inside a literal, and it is not white space; every '?' and every ';' outside comments and
      literals is a token. */
  lemma TokensAreElements(t: string, m: Mode, k: nat)
    requires k < |TokenStarts(t, m)|
    ensures TokenStarts(t, m)[k] < |t| ==>
              && TokenStarts(t, m)[k] in Elements(t, m, 0) && !Blank(t, TokenStarts(t, m)[k])
              && forall e :: e in Elements(t, m, 0) ==> !(e < TokenStarts(t, m)[k] < NextElement(t, m, e))
    ensures forall e :: e in Elements(t, m, 0) && (t[e] == '?' || t[e] == ';') ==> e in TokenStarts(t, m)
  {
    hide Starts, NextElement, Reading, CommentAt, IsSpace;
    var els, x := Elements(t, m, 0), TokenStarts(t, m)[k];
    StartsAre(t, els);
    forall e | e in els && x in els
      ensures !(e < x < NextElement(t, m, e))
    {
      NothingInside(t, m, 0, e);
    }
    forall e | e in els && (t[e] == '?' || t[e] == ';')
      ensures e in TokenStarts(t, m)
    {
      MarksBreak(t, e);
    }
  }

  lemma MarksBreak(t: string, e: nat)
    requires e < |t| && (t[e] == '?' || t[e] == ';')
    ensures Breaks(t, e)
  {
  }
}
