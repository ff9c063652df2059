/** SQLGetData on the current row of a statement: the arrays CharOffset and Lengths, the recoded texts, and the
    application's buffer, changed in place. */
module DataInPartsRow {
  import opened Common
  import opened DataInParts

  /** What the result set does for one get: copies the value from `offset` on, as far as the buffer goes, closes
      it with a zero if there is room for one, and reports the whole length. */
  method GetFrom(v: seq<nat>, offset: nat, target: array<nat>) returns (length: nat)
    requires offset <= |v|
    modifies target
    ensures length == |v|
    ensures target[..Min(target.Length, |v| - offset)] == v[offset..offset + Min(target.Length, |v| - offset)]
    ensures |v| - offset < target.Length ==> target[|v| - offset] == 0
  {
    var i := 0;
    while i < target.Length && offset + i < |v|
      invariant i <= target.Length && offset + i <= |v|
      invariant target[..i] == v[offset..offset + i]
    {
      target[i] := v[offset + i];
      i := i + 1;
    }
    if i < target.Length {
      target[i] := 0;
    }
    return |v|;
  }

  /** The get of a call for bytes: a zero that is wanted also goes where the whole value would end, or into the
      last byte of the buffer. */
  method GetClosed(v: seq<nat>, offset: nat, r: Request, target: array<nat>) returns (length: nat)
    requires offset < |v| || offset == 0
    requires target.Length == r.size && r.zero <= 1 && r.size >= r.zero
    modifies target
    ensures length == |v|
    ensures var count := Min(r.size - r.zero, |v| - offset);
            target[..count] == v[offset..offset + count] && (r.zero == 1 ==> target[count] == 0)
  {
    length := GetFrom(v, offset, target);
    ghost var had := target[..];
    var count := Min(r.size - r.zero, |v| - offset);
    assert had[..count] == v[offset..offset + count] by {
      assert had[..Min(r.size, |v| - offset)][..count] == v[offset..offset + Min(r.size, |v| - offset)][..count];
    }
    if r.zero == 1 {
      if r.size > length {
        target[length] := 0;
      } else {
        target[r.size - 1] := 0;
      }
    }
    assert target[..count] == had[..count];
  }

  /** Copies units and closes them with a zero. */
  method CopyClosed(v: seq<nat>, offset: nat, count: nat, target: array<nat>)
    requires offset + count <= |v| && count < target.Length
    modifies target
    ensures target[..count] == v[offset..offset + count] && target[count] == 0
  {
    var i := 0;
    while i < count
      invariant i <= count
      invariant target[..i] == v[offset..offset + i]
    {
      target[i] := v[offset + i];
      i := i + 1;
    }
    target[count] := 0;
  }

  class Row {
    const cols: seq<Column>
    const charOffset: array<nat>
    const lengths: array<nat>
    const buffers: array<Option<seq<nat>>>

    /** A row just fetched. */
    constructor (cols: seq<Column>)
      ensures Valid() && this.cols == cols && fresh(charOffset) && fresh(lengths) && fresh(buffers)
      ensures forall c :: 0 <= c < |cols| ==> Places()[c] == Place(0, 0, None)
    {
      this.cols := cols;
      charOffset := new nat[|cols|](_ => 0);
      lengths := new nat[|cols|](_ => 0);
      buffers := new Option<seq<nat>>[|cols|](_ => None);
    }

    ghost predicate Shaped() {
      charOffset != lengths && charOffset.Length == lengths.Length == buffers.Length == |cols|
    }

    ghost function PlaceOf(c: nat): Place
      reads charOffset, lengths, buffers
      requires Shaped() && c < |cols|
    {
      Place(charOffset[c], lengths[c], buffers[c])
    }

    ghost function Places(): seq<Place>
      reads charOffset, lengths, buffers
      requires Shaped()
    {
      seq(|cols|, c requires 0 <= c < |cols| reads charOffset, lengths, buffers => PlaceOf(c))
    }

    ghost predicate Valid()
      reads charOffset, lengths, buffers
    {
      Shaped() && AllFit(cols, Places())
    }

    /** The application's buffer has the size the call says, in units of the type. */
    ghost predicate Fitting(c: nat, r: Request, target: array<nat>) {
      && c < |cols| && Sensible(cols[c].kind, r)
      && target != charOffset && target != lengths
      && target.Length == if cols[c].kind.Wide? then r.size / 2 else r.size
    }

    method GetBytes(c: nat, r: Request, target: array<nat>) returns (code: Code, reported: nat)
      requires Shaped() && Fitting(c, r, target) && cols[c].kind.Bytes? && Fits(cols[c], PlaceOf(c))
               && !Exhausted(PlaceOf(c))
      modifies charOffset, lengths, target
      ensures forall d :: 0 <= d < |cols| && d != c ==> PlaceOf(d) == old(PlaceOf(d))
      ensures var part := BytesPart(cols[c].value, old(PlaceOf(c)), r);
              && PlaceOf(c) == part.0 && code == part.1.code && reported == part.1.length
              && Delivered(cols[c].kind, r, part.1.data, target)
    {
      var v, current := cols[c].value, charOffset[c];
      if r.size == 0 && r.indicator {
        if charOffset[c] == 0 {
          lengths[c] := |v|;
        }
        return Truncated, lengths[c] - charOffset[c];
      }
      var length := GetClosed(v, current, r, target);
      if charOffset[c] == 0 {
        lengths[c] := length;
      }
      reported := length - current;
      code := Advance(c, r, length, reported);
    }

    /** The new offset, and whether something stays behind. */
    method Advance(c: nat, r: Request, length: nat, reported: nat) returns (code: Code)
      requires Shaped() && c < |cols| && r.size >= r.zero
      modifies charOffset
      ensures forall d :: 0 <= d < |cols| && d != c ==> charOffset[d] == old(charOffset[d])
      ensures var offset, room := old(charOffset[c]) + Min(r.size - r.zero, length), r.size - r.zero;
              var truncated := (room > 0 && lengths[c] > offset) || (r.indicator && room < reported);
              && code == (if truncated then Truncated else Success)
              && charOffset[c] == if !truncated && lengths[c] == 0 then Max(r.size, length) else offset
    {
      charOffset[c] := charOffset[c] + Min(r.size - r.zero, length);
      if r.size - r.zero > 0 && lengths[c] > charOffset[c] {
        return Truncated;
      }
      if r.indicator && r.size - r.zero < reported {
        return Truncated;
      }
      if lengths[c] == 0 {
        charOffset[c] := Max(r.size, length);
      }
      return Success;
    }

    /** The number of units left; the first call recodes the value, into InternalBuffer unless it fits. */
    method Recode(c: nat, r: Request, target: array<nat>) returns (units: nat)
      requires Shaped() && Fitting(c, r, target) && cols[c].kind.Wide? && Fits(cols[c], PlaceOf(c))
               && !Exhausted(PlaceOf(c))
      modifies lengths, buffers, target
      ensures forall d :: 0 <= d < |cols| && d != c ==> PlaceOf(d) == old(PlaceOf(d))
      ensures var v, p := cols[c].value, old(PlaceOf(c));
              && units == (if p.buffer.None? then |v| else (p.length - p.offset) / 2)
              && charOffset[c] == p.offset
              && lengths[c] == (if p.buffer.None? && |v| > 0 && p.offset == 0 then 2 * units else p.length)
              && (var kept := p.buffer.None? && r.size > 0 && |v| > 0 && 2 * (units + 1) > r.size;
                  buffers[c] == if kept then Some(v) else p.buffer)
              && (r.size > 0 && buffers[c].None? ==>
                    units < target.Length && target[..units] == v[..units] && target[units] == 0)
    {
      var v := cols[c].value;
      units := 0;
      if buffers[c].None? {
        if |v| > 0 {
          units := |v|;
          if r.size > 0 {
            if 2 * (units + 1) > r.size {
              buffers[c] := Some(v);
            } else {
              CopyClosed(v, 0, units, target);
            }
          }
          if charOffset[c] == 0 {
            lengths[c] := 2 * units;
          }
        } else if r.size >= 2 {
          target[0] := 0;
        }
      } else {
        units := (lengths[c] - charOffset[c]) / 2;
      }
    }

    method GetWide(c: nat, r: Request, target: array<nat>) returns (code: Code, reported: nat)
      requires Shaped() && Fitting(c, r, target) && cols[c].kind.Wide? && Fits(cols[c], PlaceOf(c))
               && !Exhausted(PlaceOf(c))
      modifies charOffset, lengths, buffers, target
      ensures forall d :: 0 <= d < |cols| && d != c ==> PlaceOf(d) == old(PlaceOf(d))
      ensures var part := WidePart(cols[c].value, old(PlaceOf(c)), r);
              && PlaceOf(c) == part.0 && code == part.1.code && reported == part.1.length
              && Delivered(cols[c].kind, r, part.1.data, target)
    {
      var units := Recode(c, r, target);
      reported := 2 * units;
      if r.size == 0 {
        return Truncated, reported;
      }
      if buffers[c].Some? {
        CopyClosed(buffers[c].value, charOffset[c] / 2, Min(r.size / 2 - 1, units), target);
      }
      code := AdvanceWide(c, r, units);
    }

    /** The new offset, and the recoded text, which goes when all of it has been delivered. */
    method AdvanceWide(c: nat, r: Request, units: nat) returns (code: Code)
      requires Shaped() && c < |cols| && r.size >= 2
      modifies charOffset, buffers
      ensures forall d :: 0 <= d < |cols| && d != c ==> PlaceOf(d) == old(PlaceOf(d))
      ensures code == if units >= r.size / 2 then Truncated else Success
      ensures PlaceOf(c) == if units >= r.size / 2 then old(PlaceOf(c)).(offset := old(charOffset[c]) + r.size - 2)
                            else Place(if lengths[c] == 0 then 1 else lengths[c], lengths[c], None)
    {
      if units >= r.size / 2 {
        charOffset[c] := charOffset[c] + r.size - 2;
        return Truncated;
      }
      charOffset[c] := lengths[c];
      buffers[c] := None;
      if lengths[c] == 0 {
        charOffset[c] := 1;
      }
      return Success;
    }

    /** The data is in the buffer, and closed with a zero if one is wanted. */
    ghost predicate Delivered(k: Kind, r: Request, data: seq<nat>, target: array<nat>)
      reads target
    {
      && |data| <= target.Length && target[..|data|] == data
      && ((k.Wide? || (k.Bytes? && r.zero == 1)) && r.size > 0 ==> |data| < target.Length && target[|data|] == 0)
    }

    method RestartOthers(c: nat)
      requires Shaped() && c < |cols|
      modifies charOffset, buffers
      ensures PlaceOf(c) == old(PlaceOf(c))
      ensures forall d :: 0 <= d < |cols| && d != c ==> PlaceOf(d) == Restarted(old(PlaceOf(d)))
    {
      for i := 0 to |cols|
        invariant PlaceOf(c) == old(PlaceOf(c))
        invariant forall d :: 0 <= d < i && d != c ==> PlaceOf(d) == Restarted(old(PlaceOf(d)))
        invariant forall d :: i <= d < |cols| ==> PlaceOf(d) == old(PlaceOf(d))
      {
        if i != c {
          buffers[i] := None;
          charOffset[i] := 0;
        }
      }
    }

    /** SQLGetData. */
    method GetData(c: nat, r: Request, target: array<nat>) returns (code: Code, reported: nat)
      requires Valid() && Fitting(c, r, target)
      modifies charOffset, lengths, buffers, target
      ensures Valid()
      ensures Places() == Get(cols, old(Places()), c, r).0
      ensures code == Get(cols, old(Places()), c, r).1.code
      ensures code != NoData ==> reported == Get(cols, old(Places()), c, r).1.length
      ensures code != NoData ==> Delivered(cols[c].kind, r, Get(cols, old(Places()), c, r).1.data, target)
      ensures code in {NoData, NullData, NoIndicator} ==> target[..] == old(target[..])
    {
      hide BytesPart, WidePart, Fits, Sensible;
      PartAnswers(cols[c], PlaceOf(c), r);
      if charOffset[c] > 0 && charOffset[c] >= lengths[c] {
        return NoData, 0;
      }
      RestartOthers(c);
      if cols[c].kind.Bytes? {
        code, reported := GetBytes(c, r, target);
      } else if cols[c].kind.Wide? {
        code, reported := GetWide(c, r, target);
      } else if r.indicator {
        code, reported := NullData, 0;
      } else {
        code, reported := NoIndicator, 0;
      }
      assert Places() == Get(cols, old(Places()), c, r).0;
    }
  }
}
