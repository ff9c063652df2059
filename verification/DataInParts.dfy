/** SQLGetData of one row: how CharOffset, Lengths and the recoded text of each column move, and what
    arrives in the application's buffers. */
module DataInParts {
  import opened Common

  /** The C type a column is read as: bytes (SQL_C_CHAR, SQL_C_BINARY) or two-byte units (SQL_C_WCHAR); a null is the
      same in all of them. */
  datatype Kind = Bytes | Wide | Null

  /** The value of the column in the current row, in units of the type it is read as. */
  datatype Column = Column(kind: Kind, value: seq<nat>)

  /** One call: the size of the buffer in bytes, whether a terminating zero is wanted (bytes only: 1 for
      SQL_C_CHAR, 0 for SQL_C_BINARY), and whether a length pointer is given. */
  datatype Request = Request(size: nat, zero: nat, indicator: bool)

  /** CharOffset, Lengths and InternalBuffer of one column. */
  datatype Place = Place(offset: nat, length: nat, buffer: Option<seq<nat>>)

  /** NullData is SQL_SUCCESS with SQL_NULL_DATA stored through the pointer, NoIndicator the error 22002 of a null that
      finds no pointer. */
  datatype Code = Success | Truncated | NoData | NullData | NoIndicator

  /** Result, units delivered before the terminating zero, and the length stored through the pointer. */
  datatype Reply = Reply(code: Code, data: seq<nat>, length: nat)

  /** Calls this model covers: an even number of bytes for wide characters, and no SQL_C_CHAR call that gives
      neither a buffer nor a length pointer. */
  predicate Sensible(k: Kind, r: Request) {
    match k
    case Bytes => r.zero <= 1 && (r.zero == 1 && r.size == 0 ==> r.indicator)
    case Wide => r.size % 2 == 0
    case Null => true
  }

  predicate Exhausted(p: Place) { p.offset > 0 && p.offset >= p.length }

  /** What every call keeps of one column. */
  predicate Fits(col: Column, p: Place) {
    var n := |col.value|;
    match col.kind
    case Bytes => p.buffer.None? && (p.offset > 0 ==> p.length == n)
    case Wide =>
      && (n == 0 ==> p.length == 0)
      && (p.offset > 0 ==> p.length == 2 * n)
      && (p.buffer.Some? ==>
            p.buffer.value == col.value && p.length == 2 * n && p.offset < p.length && p.offset % 2 == 0)
      && (p.buffer.None? && p.offset > 0 ==> Exhausted(p))
    case Null => p.offset == 0 && p.buffer.None?
  }

  /** One call for bytes that has found data left. */
  function BytesPart(v: seq<nat>, p: Place, r: Request): (Place, Reply)
    requires Sensible(Bytes, r) && Fits(Column(Bytes, v), p) && !Exhausted(p)
  {
    var length := if p.offset == 0 then |v| else p.length;
    if r.size == 0 && r.indicator then
      (p.(length := length), Reply(Truncated, [], length - p.offset))
    else
      var data := v[p.offset..p.offset + Min(r.size - r.zero, |v| - p.offset)];
      var offset := p.offset + Min(r.size - r.zero, |v|);
      var left := |v| - p.offset;
      if (r.size - r.zero > 0 && length > offset) || (r.indicator && r.size - r.zero < left) then
        (Place(offset, length, None), Reply(Truncated, data, left))
      else
        (Place(if length == 0 then Max(r.size, |v|) else offset, length, None), Reply(Success, data, left))
  }

  /** One call for wide characters that has found data left. */
  function WidePart(v: seq<nat>, p: Place, r: Request): (Place, Reply)
    requires Sensible(Wide, r) && Fits(Column(Wide, v), p) && !Exhausted(p)
  {
    var units := if p.buffer.None? then |v| else (p.length - p.offset) / 2;
    var buffer := if p.buffer.None? && r.size > 0 && |v| > 0 && 2 * (units + 1) > r.size then Some(v) else p.buffer;
    var length := if p.buffer.None? && |v| > 0 && p.offset == 0 then 2 * units else p.length;
    if r.size == 0 then
      (Place(p.offset, length, buffer), Reply(Truncated, [], 2 * units))
    else
      var from := if buffer.None? then 0 else p.offset / 2;
      var data := v[from..from + Min(r.size / 2 - 1, units)];
      if units >= r.size / 2 then
        (Place(p.offset + r.size - 2, length, buffer), Reply(Truncated, data, 2 * units))
      else
        (Place(if length == 0 then 1 else length, length, None), Reply(Success, data, 2 * units))
  }

  /** A null leaves everything as it is, so that it is found again by the next call. */
  function NullReply(r: Request): Reply { Reply(if r.indicator then NullData else NoIndicator, [], 0) }

  function Part(col: Column, p: Place, r: Request): (Place, Reply)
    requires Sensible(col.kind, r) && Fits(col, p)
  {
    if Exhausted(p) then (p, Reply(NoData, [], 0))
    else match col.kind
      case Bytes => BytesPart(col.value, p, r)
      case Wide => WidePart(col.value, p, r)
      case Null => (p, NullReply(r))
  }

  ghost predicate AllFit(cols: seq<Column>, s: seq<Place>) {
    |s| == |cols| && forall c :: 0 <= c < |s| ==> Fits(cols[c], s[c])
  }

  function Restarted(p: Place): Place { p.(offset := 0, buffer := None) }

  /** One call: unless it finds nothing left, the other columns start again. */
  function Get(cols: seq<Column>, s: seq<Place>, c: nat, r: Request): (e: (seq<Place>, Reply))
    requires AllFit(cols, s) && c < |cols| && Sensible(cols[c].kind, r)
    ensures AllFit(cols, e.0)
  {
    var part := Part(cols[c], s[c], r);
    PartFits(cols[c], s[c], r);
    if part.1.code.NoData? then (s, part.1)
    else (seq(|s|, i requires 0 <= i < |s| => if i == c then part.0 else Restarted(s[i])), part.1)
  }

  // ---------- What the calls are for ----------

  /** How far a column has been read: so many units, and whether the last of them has been delivered. */
  datatype Seen = Seen(count: nat, done: bool)

  const NOTHING := Seen(0, false)

  /** Units that fit the buffer of one call. */
  function Room(k: Kind, r: Request): nat {
    match k
    case Bytes => if r.size > r.zero then r.size - r.zero else 0
    case Wide => if r.size >= 2 then r.size / 2 - 1 else 0
    case Null => 0
  }

  function Unit(k: Kind): nat { if k.Wide? then 2 else 1 }

  /** Whether what does not fit is reported: without room for data, bytes need the length pointer for that. */
  predicate Tells(k: Kind, r: Request) { k.Wide? || r.indicator || Room(k, r) > 0 }

  /** The reply the ODBC description of SQLGetData asks for: the next units that fit, the length of all that is
      left, 01004 when some of it stays behind. */
  function Answer(col: Column, seen: Seen, r: Request): Reply
    requires seen.count <= |col.value|
  {
    var left := |col.value| - seen.count;
    var room := Room(col.kind, r);
    if seen.done then Reply(NoData, [], 0)
    else if col.kind.Null? then NullReply(r)
    else Reply(
      if Tells(col.kind, r) && (left > room || r.size == 0) then Truncated else Success,
      col.value[seen.count..seen.count + Min(room, left)],
      Unit(col.kind) * left)
  }

  function Next(col: Column, seen: Seen, r: Request): (n: Seen)
    ensures n.count <= |col.value|
  {
    Seen(Min(seen.count + Room(col.kind, r), |col.value|),
         seen.done || (!col.kind.Null? && r.size > 0 && seen.count + Room(col.kind, r) >= |col.value|))
  }

  predicate Stands(col: Column, p: Place, seen: Seen) {
    && Fits(col, p)
    && seen.count <= |col.value|
    && (seen.done <==> Exhausted(p))
    && (seen.done ==> seen.count == |col.value|)
    && (!seen.done ==> p.offset == Unit(col.kind) * seen.count)
  }

  lemma BytesPartAnswers(v: seq<nat>, p: Place, r: Request, seen: Seen)
    requires Sensible(Bytes, r) && Stands(Column(Bytes, v), p, seen) && !Exhausted(p)
    ensures BytesPart(v, p, r).1 == Answer(Column(Bytes, v), seen, r)
  {
  }

  lemma BytesPartStands(v: seq<nat>, p: Place, r: Request, seen: Seen)
    requires Sensible(Bytes, r) && Stands(Column(Bytes, v), p, seen) && !Exhausted(p)
    ensures Stands(Column(Bytes, v), BytesPart(v, p, r).0, Next(Column(Bytes, v), seen, r))
  {
  }

  lemma WidePartAnswers(v: seq<nat>, p: Place, r: Request, seen: Seen)
    requires Sensible(Wide, r) && Stands(Column(Wide, v), p, seen) && !Exhausted(p)
    ensures WidePart(v, p, r).1 == Answer(Column(Wide, v), seen, r)
  {
    if p.buffer.None? {
      assert p.offset == 0 && seen.count == 0;
    } else {
      assert (p.length - p.offset) / 2 == |v| - seen.count;
    }
  }

  /** What a call for wide characters leaves, counted in units. */
  lemma WidePartMoves(v: seq<nat>, p: Place, r: Request, count: nat)
    requires Sensible(Wide, r) && Fits(Column(Wide, v), p) && !Exhausted(p)
    requires count <= |v| && p.offset == 2 * count
    ensures var t, left := WidePart(v, p, r).0, |v| - count;
            && (r.size == 0 ==> t.offset == p.offset && t.buffer == p.buffer)
            && (r.size > 0 && left >= r.size / 2 ==>
                  t.offset == 2 * (count + (r.size / 2 - 1)) && t.buffer == Some(v) && t.length == 2 * |v|)
            && (r.size > 0 && left < r.size / 2 ==> t == Place(if v == [] then 1 else 2 * |v|, 2 * |v|, None))
            && (r.size == 0 && |v| > 0 ==> t.length == 2 * |v| || (p.offset == 0 && t.length == p.length))
            && (|v| == 0 ==> t.length == 0)
  {
    if p.buffer.None? {
      assert count == 0;
    } else {
      assert (p.length - p.offset) / 2 == |v| - count;
    }
  }

  lemma WidePartStands(v: seq<nat>, p: Place, r: Request, seen: Seen)
    requires Sensible(Wide, r) && Stands(Column(Wide, v), p, seen) && !Exhausted(p)
    ensures Stands(Column(Wide, v), WidePart(v, p, r).0, Next(Column(Wide, v), seen, r))
  {
    hide WidePart;
    WidePartMoves(v, p, r, seen.count);
  }

  lemma PartStands(col: Column, p: Place, r: Request, seen: Seen)
    requires Sensible(col.kind, r) && Stands(col, p, seen)
    ensures Part(col, p, r).1 == Answer(col, seen, r)
    ensures Stands(col, Part(col, p, r).0, Next(col, seen, r))
  {
    hide BytesPart, WidePart;
    if !Exhausted(p) {
      match col.kind
      case Bytes =>
        BytesPartAnswers(col.value, p, r, seen);
        BytesPartStands(col.value, p, r, seen);
      case Wide =>
        WidePartAnswers(col.value, p, r, seen);
        WidePartStands(col.value, p, r, seen);
      case Null =>
    }
  }

  /** Every place a column can be in stands for some progress. */
  lemma PartFits(col: Column, p: Place, r: Request)
    requires Sensible(col.kind, r) && Fits(col, p)
    ensures Fits(col, Part(col, p, r).0)
  {
    PartStands(col, p, r, if Exhausted(p) then Seen(|col.value|, true) else Seen(p.offset / Unit(col.kind), false));
  }

  /** The recoded text is kept from a truncated read until the read that delivers its end. */
  lemma BufferWhilePending(col: Column, p: Place, r: Request)
    requires col.kind.Wide? && Sensible(Wide, r) && Fits(col, p) && !Exhausted(p)
    ensures var e := Part(col, p, r);
            e.0.buffer.Some? <==> (if r.size == 0 then p.buffer.Some? else e.1.code.Truncated?)
    ensures Part(col, p, r).0.buffer.Some? ==> Part(col, p, r).0.buffer.value == col.value
  {
  }

  /** CharOffset of a wide column passes Lengths exactly when an empty value has been read. */
  lemma WideOffsetPasses(col: Column, p: Place, r: Request)
    requires col.kind.Wide? && Sensible(Wide, r) && Fits(col, p) && !Exhausted(p)
    ensures Part(col, p, r).0.offset > Part(col, p, r).0.length <==> col.value == [] && r.size > 0
  {
  }

  // ---------- Any calls, over any columns ----------

  type Calls = seq<(nat, Request)>

  predicate Permitted(cols: seq<Column>, calls: Calls) {
    forall i :: 0 <= i < |calls| ==> calls[i].0 < |cols| && Sensible(cols[calls[i].0].kind, calls[i].1)
  }

  lemma PermittedRest(cols: seq<Column>, calls: Calls)
    requires Permitted(cols, calls) && calls != []
    ensures Permitted(cols, calls[1..])
  {
    assert forall i :: 0 <= i < |calls[1..]| ==> calls[1..][i] == calls[i + 1];
  }

  /** The replies to the calls, made one after the other in one row. */
  function Replies(cols: seq<Column>, s: seq<Place>, calls: Calls): (replies: seq<Reply>)
    requires AllFit(cols, s) && Permitted(cols, calls)
    ensures |replies| == |calls|
    decreases |calls|
  {
    if calls == [] then []
    else
      var e := Get(cols, s, calls[0].0, calls[0].1);
      PermittedRest(cols, calls);
      [e.1] + Replies(cols, e.0, calls[1..])
  }

  ghost predicate AllWithin(cols: seq<Column>, seen: seq<Seen>) {
    |seen| == |cols| && forall c :: 0 <= c < |seen| ==> seen[c].count <= |cols[c].value|
  }

  /** Only the column of the latest call that delivered something is under way. */
  function NextSeen(cols: seq<Column>, seen: seq<Seen>, c: nat, r: Request): (e: seq<Seen>)
    requires AllWithin(cols, seen) && c < |cols|
    ensures AllWithin(cols, e)
  {
    if seen[c].done then seen
    else seq(|seen|, i requires 0 <= i < |seen| => if i == c then Next(cols[c], seen[c], r) else NOTHING)
  }

  /** The replies asked for by the description of SQLGetData. */
  function Answers(cols: seq<Column>, seen: seq<Seen>, calls: Calls): (replies: seq<Reply>)
    requires AllWithin(cols, seen) && Permitted(cols, calls)
    ensures |replies| == |calls|
    decreases |calls|
  {
    if calls == [] then []
    else
      PermittedRest(cols, calls);
      [Answer(cols[calls[0].0], seen[calls[0].0], calls[0].1)]
      + Answers(cols, NextSeen(cols, seen, calls[0].0, calls[0].1), calls[1..])
  }

  ghost predicate AllStand(cols: seq<Column>, s: seq<Place>, seen: seq<Seen>) {
    |s| == |cols| == |seen| && forall c :: 0 <= c < |cols| ==> Stands(cols[c], s[c], seen[c])
  }

  lemma GetStands(cols: seq<Column>, s: seq<Place>, seen: seq<Seen>, c: nat, r: Request)
    requires AllStand(cols, s, seen) && AllFit(cols, s) && AllWithin(cols, seen) && c < |cols|
             && Sensible(cols[c].kind, r)
    ensures Get(cols, s, c, r).1 == Answer(cols[c], seen[c], r)
    ensures AllStand(cols, Get(cols, s, c, r).0, NextSeen(cols, seen, c, r))
  {
    hide Part, Next;
    PartStands(cols[c], s[c], r, seen[c]);
    PartAnswers(cols[c], s[c], r);
  }

  lemma PartAnswers(col: Column, p: Place, r: Request)
    requires Sensible(col.kind, r) && Fits(col, p)
    ensures Part(col, p, r).1.code.NoData? <==> Exhausted(p)
    ensures Part(col, p, r).1.code in {NullData, NoIndicator} <==> col.kind.Null?
  {
  }

  /** In one row, for any calls over any columns in any order, every reply is the one asked for: the pieces of a
      column follow each other until another column delivers something, and then start again. */
  lemma {:induction false} RepliesAreAnswers(cols: seq<Column>, s: seq<Place>, seen: seq<Seen>, calls: Calls)
    requires AllStand(cols, s, seen) && AllFit(cols, s) && AllWithin(cols, seen) && Permitted(cols, calls)
    ensures Replies(cols, s, calls) == Answers(cols, seen, calls)
    decreases |calls|
  {
    hide Get, NextSeen, Answer, AllStand, AllFit, AllWithin;
    if calls != [] {
      var c, r := calls[0].0, calls[0].1;
      GetStands(cols, s, seen, c, r);
      PermittedRest(cols, calls);
      RepliesAreAnswers(cols, Get(cols, s, c, r).0, NextSeen(cols, seen, c, r), calls[1..]);
    }
  }

  // ---------- Reading one column to its end ----------

  function Total(k: Kind, rs: seq<Request>): nat {
    if rs == [] then 0 else Total(k, rs[..|rs| - 1]) + Room(k, rs[|rs| - 1])
  }

  predicate Started(rs: seq<Request>) { exists i :: 0 <= i < |rs| && rs[i].size > 0 }

  function Calling(c: nat, rs: seq<Request>): Calls { seq(|rs|, i requires 0 <= i < |rs| => (c, rs[i])) }

  function Joined(replies: seq<Reply>): seq<nat> {
    if replies == [] then [] else Joined(replies[..|replies| - 1]) + replies[|replies| - 1].data
  }

  /** How far the column is after the calls. */
  function SeenAfter(col: Column, rs: seq<Request>): (n: Seen)
    ensures n.count <= |col.value|
  {
    if rs == [] then NOTHING else Next(col, SeenAfter(col, rs[..|rs| - 1]), rs[|rs| - 1])
  }

  lemma {:induction false} SeenIsTotal(col: Column, rs: seq<Request>)
    ensures SeenAfter(col, rs)
            == Seen(Min(Total(col.kind, rs), |col.value|),
                    !col.kind.Null? && Started(rs) && Total(col.kind, rs) >= |col.value|)
    decreases |rs|
  {
    if rs != [] {
      var before, r := rs[..|rs| - 1], rs[|rs| - 1];
      SeenIsTotal(col, before);
      assert Started(rs) <==> Started(before) || r.size > 0 by {
        assert forall i :: 0 <= i < |before| ==> before[i] == rs[i];
      }
    }
  }

  lemma SeenThen(cols: seq<Column>, seen: seq<Seen>, c: nat, before: seq<Request>, r: Request)
    requires AllWithin(cols, seen) && c < |cols| && seen[c] == SeenAfter(cols[c], before)
    ensures NextSeen(cols, seen, c, r)[c] == SeenAfter(cols[c], before + [r])
  {
    hide Next;
    assert (before + [r])[..|before|] == before;
    if seen[c].done {
      DoneStays(cols[c], before, r);
    }
  }

  lemma {:induction false} AnswerInTurn(cols: seq<Column>, seen: seq<Seen>, c: nat, before: seq<Request>,
      rs: seq<Request>, i: nat)
    requires AllWithin(cols, seen) && c < |cols| && Permitted(cols, Calling(c, rs)) && i < |rs|
    requires seen[c] == SeenAfter(cols[c], before)
    ensures Answers(cols, seen, Calling(c, rs))[i] == Answer(cols[c], SeenAfter(cols[c], before + rs[..i]), rs[i])
    decreases |rs|
  {
    hide Answer, Next, Sensible, SeenAfter, NextSeen, AllWithin;
    var calls, e := Calling(c, rs), NextSeen(cols, seen, c, rs[0]);
    assert calls[1..] == Calling(c, rs[1..]);
    if i == 0 {
      assert before + rs[..0] == before;
    } else {
      PermittedRest(cols, calls);
      SeenThen(cols, seen, c, before, rs[0]);
      AnswerInTurn(cols, e, c, before + [rs[0]], rs[1..], i - 1);
      assert (before + [rs[0]]) + rs[1..][..i - 1] == before + rs[..i];
    }
  }

  lemma DoneStays(col: Column, rs: seq<Request>, r: Request)
    requires SeenAfter(col, rs).done
    ensures Next(col, SeenAfter(col, rs), r) == SeenAfter(col, rs)
  {
    SeenIsTotal(col, rs);
  }

  lemma AnswerExtends(col: Column, rs: seq<Request>, r: Request)
    ensures var seen := SeenAfter(col, rs);
            col.value[..seen.count] + Answer(col, seen, r).data == col.value[..Next(col, seen, r).count]
  {
    SeenIsTotal(col, rs);
  }

  lemma {:induction false} JoinedIsPrefix(col: Column, rs: seq<Request>, replies: seq<Reply>)
    requires |replies| == |rs|
    requires forall i :: 0 <= i < |rs| ==> replies[i] == Answer(col, SeenAfter(col, rs[..i]), rs[i])
    ensures Joined(replies) == col.value[..SeenAfter(col, rs).count]
    decreases |rs|
  {
    hide Answer, Next;
    if rs != [] {
      var k := |rs| - 1;
      assert forall i :: 0 <= i < k ==> rs[..k][..i] == rs[..i];
      JoinedIsPrefix(col, rs[..k], replies[..k]);
      AnswerExtends(col, rs[..k], rs[k]);
    }
  }

  function SeenIn(col: Column, p: Place): Seen {
    if Exhausted(p) then Seen(|col.value|, true) else Seen(p.offset / Unit(col.kind), false)
  }

  /** What a call gets after the calls `rs` for the column: the units that follow, as many as fit; the length of
      all that was left; 01004 exactly when some of that stays behind, or no buffer was given; SQL_NO_DATA exactly
      when the end has been delivered before, for an empty value too. A null is reported as one every time. */
  predicate IsNextPart(col: Column, rs: seq<Request>, r: Request, reply: Reply) {
    var had := Min(Total(col.kind, rs), |col.value|);
    var left, room := |col.value| - had, Room(col.kind, r);
    if col.kind.Null? then reply.data == [] && reply.code == if r.indicator then NullData else NoIndicator
    else if left == 0 && Started(rs) then reply.code == NoData && reply.data == []
    else
      && reply.data == col.value[had..had + Min(room, left)]
      && reply.length == Unit(col.kind) * left
      && reply.code == if Tells(col.kind, r) && (left > room || r.size == 0) then Truncated else Success
  }

  lemma AnswerIsNextPart(col: Column, rs: seq<Request>, r: Request)
    ensures IsNextPart(col, rs, r, Answer(col, SeenAfter(col, rs), r))
  {
    SeenIsTotal(col, rs);
  }

  lemma NothingSeen(col: Column)
    ensures SeenAfter(col, []) == NOTHING
  {
  }

  lemma AllSeen(cols: seq<Column>, s: seq<Place>) returns (seen: seq<Seen>)
    requires AllFit(cols, s)
    ensures AllStand(cols, s, seen) && AllWithin(cols, seen)
    ensures forall c :: 0 <= c < |cols| && s[c].offset == 0 ==> seen[c] == NOTHING
  {
    seen := seq(|cols|, i requires 0 <= i < |cols| => SeenIn(cols[i], s[i]));
  }

  /** Whatever was read of other columns before: the calls for a column that starts deliver exactly its value, in
      order, up to the room there was, whatever sizes the buffers have. */
  lemma PartsMakeTheWhole(cols: seq<Column>, s: seq<Place>, c: nat, rs: seq<Request>)
    requires AllFit(cols, s) && c < |cols| && Permitted(cols, Calling(c, rs))
    requires s[c].offset == 0
    ensures Joined(Replies(cols, s, Calling(c, rs))) == cols[c].value[..Min(Total(cols[c].kind, rs), |cols[c].value|)]
    ensures forall i :: 0 <= i < |rs| ==> IsNextPart(cols[c], rs[..i], rs[i], Replies(cols, s, Calling(c, rs))[i])
  {
    hide Answer, AllStand, AllWithin, AllFit, IsNextPart, SeenAfter, Answers, Replies, Permitted, Total;
    var col, replies := cols[c], Replies(cols, s, Calling(c, rs));
    var seen := AllSeen(cols, s);
    RepliesAreAnswers(cols, s, seen, Calling(c, rs));
    NothingSeen(col);
    assert seen[c] == SeenAfter(col, []);
    forall i | 0 <= i < |rs|
      ensures replies[i] == Answer(col, SeenAfter(col, rs[..i]), rs[i])
      ensures IsNextPart(col, rs[..i], rs[i], replies[i])
    {
      AnswerInTurn(cols, seen, c, [], rs, i);
      assert [] + rs[..i] == rs[..i];
      AnswerIsNextPart(col, rs[..i], rs[i]);
    }
    JoinedIsPrefix(col, rs, replies);
    SeenIsTotal(col, rs);
  }
}
