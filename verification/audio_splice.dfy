/** Audio as pydub's `AudioSegment` presents it to processing.py: a sequence
    of one-millisecond units, sliced by millisecond positions. A slice bound
    past the end is clamped to the length, and a reversed span is empty. */
module AudioSplice {

  function Clamp(i: nat, len: nat): (r: nat)
    ensures r <= len && r <= i
    ensures i <= len ==> r == i
    ensures len <= i ==> r == len
  {
    if i < len then i else len
  }

  /** `audio[from:to]`, both bounds in milliseconds. */
  function Slice<T>(buf: seq<T>, from: nat, to: nat): (r: seq<T>)
    ensures |r| <= |buf|
    ensures from <= to <= |buf| ==> r == buf[from..to]
    ensures from <= |buf| <= to ==> r == buf[from..]
    ensures from >= |buf| || to <= from ==> r == []
  {
    var a, b := Clamp(from, |buf|), Clamp(to, |buf|);
    if a <= b then buf[a..b] else []
  }

  /** `audio[:at]`. */
  function Before<T>(buf: seq<T>, at: nat): (r: seq<T>)
    ensures |r| == Clamp(at, |buf|) && r == buf[..|r|]
  {
    Slice(buf, 0, at)
  }

  /** `audio[at:]`. */
  function After<T>(buf: seq<T>, at: nat): (r: seq<T>)
    ensures |r| == |buf| - Clamp(at, |buf|) && r == buf[|buf| - |r|..]
  {
    Slice(buf, at, |buf|)
  }

  /** `audio[:from] + vocals + audio[to:]`: the span from `from` to `to` is
      replaced by `vocals`. */
  function Splice<T>(buf: seq<T>, from: nat, to: nat, vocals: seq<T>): (r: seq<T>)
    ensures |r| == Clamp(from, |buf|) + |vocals| + (|buf| - Clamp(to, |buf|))
    ensures r[..Clamp(from, |buf|)] == buf[..Clamp(from, |buf|)]
    ensures r[|r| - (|buf| - Clamp(to, |buf|))..] == buf[Clamp(to, |buf|)..]
    ensures r[Clamp(from, |buf|)..Clamp(from, |buf|) + |vocals|] == vocals
  {
    var r := Before(buf, from) + vocals + After(buf, to);
    assert r[..|Before(buf, from)|] == Before(buf, from);
    assert r[|Before(buf, from)| + |vocals|..] == After(buf, to);
    r
  }

  /** A span inside the buffer, replaced by as many units as it spans, keeps
      the length, leaves everything before and after it as it was and holds
      the replacement in between. */
  lemma SpliceInPlace<T>(buf: seq<T>, from: nat, to: nat, vocals: seq<T>)
    requires from <= to <= |buf| && |vocals| == to - from
    ensures var r := Splice(buf, from, to, vocals);
      && |r| == |buf|
      && r[..from] == buf[..from]
      && r[from..to] == vocals
      && r[to..] == buf[to..]
  {
    var r := Splice(buf, from, to, vocals);
    assert r == buf[..from] + vocals + buf[to..];
    assert r[from..to] == vocals;
  }

  /** Outside the replaced span every unit keeps its value. */
  lemma SpliceKeepsOutside<T>(buf: seq<T>, from: nat, to: nat, vocals: seq<T>, j: nat)
    requires from <= to <= |buf| && |vocals| == to - from
    requires j < |buf| && (j < from || to <= j)
    ensures Splice(buf, from, to, vocals)[j] == buf[j]
  {
    var r := Splice(buf, from, to, vocals);
    SpliceInPlace(buf, from, to, vocals);
    if j < from {
      assert r[..from][j] == buf[..from][j];
    } else {
      assert r[to..][j - to] == buf[to..][j - to];
    }
  }

  /** A span that starts at or past the end replaces nothing: the vocals are
      appended. */
  lemma SpliceBeyondEnd<T>(buf: seq<T>, from: nat, to: nat, vocals: seq<T>)
    requires |buf| <= from <= to
    ensures Splice(buf, from, to, vocals) == buf + vocals
  {
    assert Before(buf, from) == buf;
    assert After(buf, to) == [];
  }

  /** A forward span replaced by as many units as it covers once clamped to
      the buffer (the length of `buf[from:to]`) keeps the length, and every
      position outside the span keeps its value, even when the span runs
      past the end. */
  lemma SpliceClamped<T>(buf: seq<T>, from: nat, to: nat, vocals: seq<T>)
    requires from <= to && |vocals| == |Slice(buf, from, to)|
    ensures var r := Splice(buf, from, to, vocals);
      && |r| == |buf|
      && forall j :: 0 <= j < |buf| && (j < from || to <= j) ==> r[j] == buf[j]
  {
    var a, b := Clamp(from, |buf|), Clamp(to, |buf|);
    var r := Splice(buf, from, to, vocals);
    assert r == buf[..a] + vocals + buf[b..];
    forall j | 0 <= j < |buf| && (j < from || to <= j)
      ensures r[j] == buf[j]
    {
      if j >= a {
        assert r[j] == buf[b..][j - b];
      }
    }
  }
}
