/** A query text read one character at a time: outside, in a literal, or in a comment. The tokenizer, which jumps from
    element to element, sees the same. */
module QueryText {
  import opened Common
  import opened QueryTokens

  /** Where a reader is before a character. */
  datatype Where =
    | Outside
    | Literal(quote: char)
    | Escaped(quote: char)   // in a literal, behind a backslash that takes the next character along
    | SecondDash             // before the second character of "--"
    | Line                   // in a comment that ends with the line
    | SecondStar             // before the second character of "/*"
    | Block                  // in a comment that ends with "*/"
    | SecondSlash            // before the second character of "*/"

  /** Single quotes always allow backslashes, double quotes only while they mean text, backticks never; the SQL mode can
      forbid them altogether. */
  predicate BackslashIn(m: Mode, quote: char) {
    if quote == '\'' then !m.noBackslashEscape
    else if quote == '"' then !m.noBackslashEscape && !m.ansiQuotes
    else false
  }

  function Then(t: string, m: Mode, i: nat, w: Where): Where
    requires i < |t|
  {
    var c := t[i];
    match w
    case Outside =>
      if c == '#' then Line
      else if c == '-' && i + 1 < |t| && t[i + 1] == '-' then SecondDash
      else if c == '/' && i + 1 < |t| && t[i + 1] == '*' then SecondStar
      else if c == '\'' || c == '"' || c == '`' then Literal(c)
      else Outside
    case Literal(quote) =>
      if c == quote then Outside else if c == '\\' && BackslashIn(m, quote) then Escaped(quote) else w
    case Escaped(quote) => Literal(quote)
    case SecondDash => Line
    case Line => if c == '\n' then Outside else Line
    case SecondStar => Block
    case Block => if c == '*' && i + 1 < |t| && t[i + 1] == '/' then SecondSlash else Block
    case SecondSlash => Outside
  }

  /** Where the reader is before place `e`, if it is at `w` before place `i`. */
  function Along(t: string, m: Mode, i: nat, w: Where, e: nat): Where
    requires i <= e <= |t|
    decreases e - i
  {
    if i == e then w else Along(t, m, i + 1, Then(t, m, i, w), e)
  }

  function At(t: string, m: Mode, e: nat): Where
    requires e <= |t|
  {
    Along(t, m, 0, Outside, e)
  }

  lemma {:induction false} AlongJoins(t: string, m: Mode, i: nat, w: Where, j: nat, e: nat)
    requires i <= j <= e <= |t|
    ensures Along(t, m, i, w, e) == Along(t, m, j, Along(t, m, i, w, j), e)
    decreases j - i
  {
    hide Then;
    if i < j {
      AlongJoins(t, m, i + 1, Then(t, m, i, w), j, e);
    }
  }

  // ---------- Within an element ----------

  lemma {:induction false} LineRuns(t: string, m: Mode, i: nat, x: nat)
    requires i <= x <= |t| && x <= IndexFrom(t, i, '\n')
    ensures Along(t, m, i, Line, x) == Line
    decreases x - i
  {
    if i < x {
      LineRuns(t, m, i + 1, x);
    }
  }

  lemma {:induction false} BlockRuns(t: string, m: Mode, i: nat, x: nat)
    requires i <= x <= |t| && x <= CloseFrom(t, i)
    ensures Along(t, m, i, Block, x) == Block
    decreases x - i
  {
    if i < x {
      BlockRuns(t, m, i + 1, x);
    }
  }

  predicate InLiteral(w: Where, quote: char) { w == Literal(quote) || w == Escaped(quote) }

  /** A reader in a literal stays there up to the quote that closes it, and is not behind a backslash then. */
  lemma {:induction false} LiteralRuns(t: string, m: Mode, i: nat, quote: char, x: nat)
    requires i <= x <= |t| && x <= QuoteEnd(t, i, quote, Escapes(m, quote)) && IsQuote(quote)
    ensures InLiteral(Along(t, m, i, Literal(quote), x), quote)
    ensures x == QuoteEnd(t, i, quote, Escapes(m, quote)) < |t| ==> Along(t, m, i, Literal(quote), x) == Literal(quote)
    decreases x - i
  {
    hide Then;
    if i < x {
      LiteralStep(t, m, i, quote);
      if Escapes(m, quote) && t[i] == '\\' {
        if i + 2 <= x {
          LiteralRuns(t, m, i + 2, quote, x);
          TwoSteps(t, m, i, Literal(quote), x);
        } else {
          OneStep(t, m, i, Literal(quote));
        }
      } else {
        LiteralRuns(t, m, i + 1, quote, x);
      }
    }
  }

  lemma LiteralStep(t: string, m: Mode, i: nat, quote: char)
    requires i < |t| && IsQuote(quote) && t[i] != quote
    ensures Then(t, m, i, Literal(quote))
            == if Escapes(m, quote) && t[i] == '\\' then Escaped(quote) else Literal(quote)
    ensures i + 1 < |t| ==> Then(t, m, i + 1, Escaped(quote)) == Literal(quote)
  {
  }

  lemma OneStep(t: string, m: Mode, i: nat, w: Where)
    requires i < |t|
    ensures Along(t, m, i, w, i + 1) == Then(t, m, i, w)
  {
  }

  lemma TwoSteps(t: string, m: Mode, i: nat, w: Where, x: nat)
    requires i + 2 <= x <= |t|
    ensures Along(t, m, i, w, x) == Along(t, m, i + 2, Then(t, m, i + 1, Then(t, m, i, w)), x)
  {
    hide Then;
  }

  predicate Open(w: Where) { w.Literal? || w.Escaped? }

  /** Where the reader gets from the start of an element to its end; `open` says that the text ends in a literal. */
  ghost predicate Crosses(t: string, m: Mode, i: nat, e: nat, open: bool)
    requires i < e <= |t|
  {
    && (forall x :: i < x < e ==> Along(t, m, i, Outside, x) != Outside)
    && (e < |t| ==> Along(t, m, i, Outside, e) == Outside)
    && (Open(Along(t, m, i, Outside, e)) <==> open)
  }

  lemma LineCrossed(t: string, m: Mode, i: nat)
    requires i < |t| && t[i] == '#'
    ensures CommentAt(t, i) && Crosses(t, m, i, CommentEnd(t, i), false)
  {
    var k, e := IndexFrom(t, i + 1, '\n'), CommentEnd(t, i);
    forall x | i < x <= k && x <= |t|
      ensures Along(t, m, i, Outside, x) == Line
    {
      LineRuns(t, m, i + 1, x);
    }
    if k < |t| {
      AlongJoins(t, m, i, Outside, k, e);
    }
  }

  lemma DashesCrossed(t: string, m: Mode, i: nat)
    requires i + 1 < |t| && t[i] == '-' && t[i + 1] == '-'
    ensures CommentAt(t, i) && Crosses(t, m, i, CommentEnd(t, i), false)
  {
    var k, e := IndexFrom(t, i + 2, '\n'), CommentEnd(t, i);
    OneStep(t, m, i, Outside);
    forall x | i + 2 <= x <= k && x <= |t|
      ensures Along(t, m, i, Outside, x) == Line
    {
      LineRuns(t, m, i + 2, x);
      TwoSteps(t, m, i, Outside, x);
    }
    if k < |t| {
      AlongJoins(t, m, i, Outside, k, e);
    }
  }

  lemma BlockCrossed(t: string, m: Mode, i: nat)
    requires i + 1 < |t| && t[i] == '/' && t[i + 1] == '*'
    ensures CommentAt(t, i) && Crosses(t, m, i, CommentEnd(t, i), false)
  {
    var k, e := CloseFrom(t, i + 2), CommentEnd(t, i);
    OneStep(t, m, i, Outside);
    forall x | i + 2 <= x <= k && x <= |t|
      ensures Along(t, m, i, Outside, x) == Block
    {
      BlockRuns(t, m, i + 2, x);
      TwoSteps(t, m, i, Outside, x);
    }
    if k < |t| {
      AlongJoins(t, m, i, Outside, k, k + 1);
      AlongJoins(t, m, i, Outside, k, e);
      TwoSteps(t, m, k, Block, e);
      OneStep(t, m, k, Block);
    }
  }

  lemma LiteralCrossed(t: string, m: Mode, i: nat)
    requires i < |t| && IsQuote(t[i])
    ensures !CommentAt(t, i) && Crosses(t, m, i, NextElement(t, m, i), LiteralEnd(t, m, i) == |t|)
  {
    var k, e := LiteralEnd(t, m, i), NextElement(t, m, i);
    forall x | i < x <= k
      ensures InLiteral(Along(t, m, i, Outside, x), t[i])
      ensures x == k < |t| ==> Along(t, m, i, Outside, x) == Literal(t[i])
    {
      LiteralRuns(t, m, i + 1, t[i], x);
    }
    if k < |t| {
      AlongJoins(t, m, i, Outside, k, e);
      OneStep(t, m, k, Literal(t[i]));
    }
  }

  lemma PlainCrossed(t: string, m: Mode, i: nat)
    requires i < |t| && !CommentAt(t, i) && !IsQuote(t[i])
    ensures Crosses(t, m, i, i + 1, false)
  {
    OneStep(t, m, i, Outside);
  }

  /** From the start of an element the reader is outside again at its end, and nowhere before. */
  lemma ElementCrossed(t: string, m: Mode, i: nat)
    requires i < |t|
    ensures Crosses(t, m, i, NextElement(t, m, i), !CommentAt(t, i) && IsQuote(t[i]) && LiteralEnd(t, m, i) == |t|)
  {
    hide Crosses, CommentEnd, LiteralEnd;
    if t[i] == '#' {
      LineCrossed(t, m, i);
    } else if Pair(t, i, '-', '-') {
      DashesCrossed(t, m, i);
    } else if Pair(t, i, '/', '*') {
      BlockCrossed(t, m, i);
    } else if IsQuote(t[i]) {
      LiteralCrossed(t, m, i);
    } else {
      PlainCrossed(t, m, i);
    }
  }

  // ---------- The whole text ----------

  lemma {:induction false} ElementsFrom(t: string, m: Mode, i: nat)
    requires i <= |t|
    ensures forall e: nat :: e in Elements(t, m, i) <==> i <= e < |t| && Along(t, m, i, Outside, e) == Outside
    ensures Closed(t, m, i) <==> !Open(Along(t, m, i, Outside, |t|))
    decreases |t| - i
  {
    hide NextElement, CommentAt, LiteralEnd, Then;
    if i < |t| {
      var n := NextElement(t, m, i);
      ElementCrossed(t, m, i);
      ElementsFrom(t, m, n);
      AfterFirst(t, m, i);
      forall e: nat
        ensures e in Elements(t, m, i) <==> i <= e < |t| && Along(t, m, i, Outside, e) == Outside
      {
        if n <= e < |t| {
          AlongJoins(t, m, i, Outside, n, e);
        }
      }
      AlongJoins(t, m, i, Outside, n, |t|);
      ClosedFrom(t, m, i);
    }
  }

  lemma ClosedFrom(t: string, m: Mode, i: nat)
    requires i < |t|
    ensures Closed(t, m, i) <==>
              !(!CommentAt(t, i) && IsQuote(t[i]) && LiteralEnd(t, m, i) == |t|) && Closed(t, m, NextElement(t, m, i))
  {
    hide NextElement, CommentAt, LiteralEnd;
  }

  /** The elements of a text start exactly where the reader is outside, and its literals are closed if and only if the
      reader does not end in one. */
  lemma ReadersAgree(t: string, m: Mode, e: nat)
    requires e < |t|
    ensures e in Elements(t, m, 0) <==> At(t, m, e) == Outside
    ensures Closed(t, m, 0) <==> !Open(At(t, m, |t|))
  {
    hide Along;
    ElementsFrom(t, m, 0);
  }

  // ---------- Which characters begin a token ----------

  predicate CommentBegins(t: string, m: Mode, e: nat)
    requires e < |t|
  {
    Then(t, m, e, Outside) in {Line, SecondDash, SecondStar}
  }

  /** White space that does not end a token: vertical tabs and form feeds. */
  predicate Transparent(c: char) { c as int == 11 || c as int == 12 }

  /** A place outside at which a token is going on or begins: no comment, no white space, and none of the two characters
      that are tokens by themselves. */
  predicate InToken(t: string, m: Mode, d: nat)
    requires d < |t|
  {
    At(t, m, d) == Outside && !CommentBegins(t, m, d) && !IsSpace(t[d]) && t[d] != '?' && t[d] != ';'
  }

  /** The token at place `d` goes on up to place `e`. */
  ghost predicate GoesOnTo(t: string, m: Mode, d: nat, e: nat)
    requires e <= |t|
  {
    d < e && InToken(t, m, d) && forall x: nat :: d < x < e && At(t, m, x) == Outside ==> Transparent(t[x])
  }

  /** Characters that begin a token wherever the reader is outside and no comment begins. */
  predicate Begins(c: char) { c in {'?', ';', '-', '/', '\'', '"', '`'} }

  /** What the tokenizer takes for a place in a token. */
  predicate WordAt(t: string, p: nat)
    requires p < |t|
  {
    !CommentAt(t, p) && !IsSpace(t[p]) && t[p] != '?' && t[p] != ';'
  }

  predicate Neutral(t: string, p: nat)
    requires p < |t|
  {
    !CommentAt(t, p) && IsSpace(t[p]) && !Stops(t[p])
  }

  /** The last element but for neutral ones is in a token. */
  predicate LastWord(t: string, els: seq<nat>, k: nat)
    requires Within(t, els)
  {
    k < |els| && WordAt(t, els[k]) && forall j :: k < j < |els| ==> Neutral(t, els[j])
  }

  lemma {:induction false} ReadingIs(t: string, els: seq<nat>)
    requires Within(t, els)
    ensures Reading(t, els) <==> exists k: nat :: LastWord(t, els, k)
    decreases |els|
  {
    hide CommentAt;
    if els != [] {
      var n := |els| - 1;
      ReadingIs(t, els[..n]);
      if WordAt(t, els[n]) {
        assert LastWord(t, els, n);
      } else if Neutral(t, els[n]) {
        if k: nat :| LastWord(t, els[..n], k) {
          assert LastWord(t, els, k);
        }
        if k: nat :| LastWord(t, els, k) {
          assert LastWord(t, els[..n], k);
        }
      }
    }
  }

  /** The element at place `k` starts a token. */
  predicate StartsAt(t: string, els: seq<nat>, k: nat)
    requires Within(t, els) && k < |els|
  {
    !Blank(t, els[k]) && (Stops(t[els[k]]) || !Reading(t, els[..k]))
  }

  lemma {:induction false} StartsMember(t: string, els: seq<nat>, k: nat)
    requires Within(t, els) && Increasing(els) && k < |els|
    ensures els[k] in Starts(t, els) <==> StartsAt(t, els, k)
    decreases |els|
  {
    hide Blank, Stops, Reading;
    var n := |els| - 1;
    StartsAre(t, els[..n]);
    if k < n {
      assert els[..n][..k] == els[..k];
      StartsMember(t, els[..n], k);
    }
  }

  lemma Kinds(t: string, m: Mode, p: nat)
    requires p < |t|
    ensures CommentAt(t, p) <==> CommentBegins(t, m, p)
    ensures At(t, m, p) == Outside ==> (WordAt(t, p) <==> InToken(t, m, p))
    ensures !CommentAt(t, p) ==> (Neutral(t, p) <==> Transparent(t[p]))
    ensures CommentAt(t, p) ==> !Transparent(t[p])
    ensures !Blank(t, p) ==> (Stops(t[p]) <==> Begins(t[p]))
  {
    hide At;
  }

  /** Elements and places at which the reader is outside are the same. */
  lemma ElementPlaces(t: string, m: Mode)
    ensures var els := Elements(t, m, 0);
            && Within(t, els) && Increasing(els)
            && (forall x: nat :: x < |t| ==> (x in els <==> At(t, m, x) == Outside))
  {
    hide At, Elements;
    ElementsAscend(t, m, 0);
    forall x: nat | x < |t|
      ensures x in Elements(t, m, 0) <==> At(t, m, x) == Outside
    {
      ReadersAgree(t, m, x);
    }
  }

  /** The first `k` elements are the places outside before `e`. */
  ghost predicate PlacesBefore(t: string, m: Mode, els: seq<nat>, e: nat)
    requires e <= |t|
  {
    && Increasing(els) && (forall x: nat :: x in els ==> x < e)
    && (forall x: nat :: x < e ==> (x in els <==> At(t, m, x) == Outside))
  }

  lemma ReadingByCharacter(t: string, m: Mode, els: seq<nat>, e: nat)
    requires e <= |t| && PlacesBefore(t, m, els, e)
    ensures Within(t, els)
    ensures Reading(t, els) <==> exists d: nat :: GoesOnTo(t, m, d, e)
  {
    hide At, CommentAt, CommentBegins, Reading, IsSpace;
    assert forall i :: 0 <= i < |els| ==> els[i] in els;
    ReadingIs(t, els);
    if k: nat :| LastWord(t, els, k) {
      WordGoesOn(t, m, els, e, k);
    }
    if d: nat :| GoesOnTo(t, m, d, e) {
      GoesOnFromWord(t, m, els, e, d);
    }
  }

  lemma WordGoesOn(t: string, m: Mode, els: seq<nat>, e: nat, k: nat)
    requires e <= |t| && PlacesBefore(t, m, els, e) && Within(t, els) && LastWord(t, els, k)
    ensures GoesOnTo(t, m, els[k], e)
  {
    hide At, CommentAt, CommentBegins, Neutral, WordAt, InToken, Transparent;
    assert els[k] in els;
    Kinds(t, m, els[k]);
    forall x: nat | els[k] < x < e && At(t, m, x) == Outside
      ensures Transparent(t[x])
    {
      var j :| 0 <= j < |els| && els[j] == x;
      Kinds(t, m, x);
      NeutralIsNoComment(t, x);
    }
  }

  lemma NeutralIsNoComment(t: string, x: nat)
    requires x < |t|
    ensures Neutral(t, x) ==> !CommentAt(t, x)
  {
  }

  lemma GoesOnFromWord(t: string, m: Mode, els: seq<nat>, e: nat, d: nat)
    requires e <= |t| && PlacesBefore(t, m, els, e) && Within(t, els) && GoesOnTo(t, m, d, e)
    ensures exists k: nat :: LastWord(t, els, k)
  {
    hide At, CommentAt, CommentBegins, Neutral, WordAt, Transparent;
    var k :| 0 <= k < |els| && els[k] == d;
    Kinds(t, m, d);
    forall j | k < j < |els|
      ensures Neutral(t, els[j])
    {
      assert els[j] in els;
      Kinds(t, m, els[j]);
    }
    assert LastWord(t, els, k);
  }

  /** Exactly which places begin a token, character by character: the reader is outside, there is no white space and no
      comment begins, and either the character always begins a token or none is going on there. The end of the text
      counts as one more if its last element is white space or a comment and no token goes on to it. */
  lemma TokensExactly(t: string, m: Mode, e: nat)
    requires e <= |t|
    ensures e < |t| ==>
              (e in TokenStarts(t, m) <==>
                && At(t, m, e) == Outside && !IsSpace(t[e]) && !CommentBegins(t, m, e)
                && (Begins(t[e]) || !exists d: nat :: GoesOnTo(t, m, d, e)))
    ensures e == |t| ==> (e in TokenStarts(t, m) <==> EndsBlank(t, m) && !exists d: nat :: GoesOnTo(t, m, d, e))
  {
    hide At, Elements, CommentAt, CommentBegins, Reading, Starts, StartsAt, GoesOnTo;
    var els := Elements(t, m, 0);
    ElementPlaces(t, m);
    StartsAre(t, els);
    if e == |t| {
      ReadingByCharacter(t, m, els, e);
      EndIs(t, m);
    } else if e in els {
      var k :| 0 <= k < |els| && els[k] == e;
      StartsMember(t, els, k);
      PlacesBeforeElement(t, m, els, k);
      ReadingByCharacter(t, m, els[..k], e);
      Kinds(t, m, e);
      StartsIs(t, els, k);
    }
  }

  lemma StartsIs(t: string, els: seq<nat>, k: nat)
    requires Within(t, els) && k < |els|
    ensures StartsAt(t, els, k) <==>
              !IsSpace(t[els[k]]) && !CommentAt(t, els[k]) && (Stops(t[els[k]]) || !Reading(t, els[..k]))
  {
  }

  lemma PlacesBeforeElement(t: string, m: Mode, els: seq<nat>, k: nat)
    requires PlacesBefore(t, m, els, |t|) && k < |els| && Within(t, els)
    ensures PlacesBefore(t, m, els[..k], els[k])
  {
    hide At;
    forall x: nat | x < els[k] && x in els
      ensures x in els[..k]
    {
      var j :| 0 <= j < |els| && els[j] == x;
      assert els[..k][j] == x;
    }
  }

  /** The last place outside is white space or the beginning of a comment. */
  ghost predicate EndsBlank(t: string, m: Mode) { exists x: nat :: LastBlank(t, m, x) }

  ghost predicate LastBlank(t: string, m: Mode, x: nat) {
    && x < |t| && At(t, m, x) == Outside && (IsSpace(t[x]) || CommentBegins(t, m, x))
    && forall y: nat :: x < y < |t| ==> At(t, m, y) != Outside
  }

  lemma EndIs(t: string, m: Mode)
    ensures var els := Elements(t, m, 0); (els != [] && Blank(t, els[|els| - 1])) <==> EndsBlank(t, m)
  {
    hide At, Elements, CommentAt, CommentBegins;
    var els := Elements(t, m, 0);
    ElementPlaces(t, m);
    if els != [] {
      var last := els[|els| - 1];
      assert last in els;
      Kinds(t, m, last);
      assert forall y: nat :: last < y < |t| ==> y !in els;
      if Blank(t, last) {
        assert LastBlank(t, m, last);
      }
    }
    if x: nat :| LastBlank(t, m, x) {
      assert x in els;
      Kinds(t, m, x);
      LastIsLast(els, x);
    }
  }

  lemma LastIsLast(els: seq<nat>, x: nat)
    requires Increasing(els) && x in els
    ensures els[|els| - 1] == x || els[|els| - 1] > x
    ensures els[|els| - 1] in els
  {
  }

  /** A backslash before a quote keeps the literal open, unless the SQL mode says otherwise: the semicolon is inside the
      literal in the one case, and a token in the other. */
  lemma BackslashQuote(m: Mode)
    ensures var t := "'\\';'"; At(t, m, 3) == if m.noBackslashEscape then Outside else Literal('\'')
  {
    var t := "'\\';'";
    TwoSteps(t, m, 0, Outside, 3);
    OneStep(t, m, 2, Then(t, m, 1, Literal('\'')));
  }
}
