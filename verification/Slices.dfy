/** Slices of samples over shared backing arrays, and the in-place operations the
    store performs on them. */
module Slices {
  import opened Samples
  import opened StoreModel

  const ZERO_SAMPLE := Sample(0.0, 0)

  /** A window on a backing array; `buf.Length - lo` is its capacity. */
  datatype Slice = Slice(buf: array<Sample>, lo: nat, hi: nat) {
    predicate Valid() { lo <= hi <= buf.Length }

    function Len(): nat requires Valid() { hi - lo }

    function View(): seq<Sample>
      requires Valid()
      reads buf
    {
      buf[lo..hi]
    }

    function Get(i: nat): (x: Sample)
      requires Valid() && i < Len()
      reads buf
      ensures x == View()[i]
    {
      buf[lo + i]
    }
  }

  /** A slice of a slice shows a slice of its samples. */
  lemma PartView(s: Slice, i: nat, j: nat)
    requires s.Valid() && i <= j <= s.Len()
    ensures Slice(s.buf, s.lo + i, s.lo + j).View() == s.View()[i..j]
  {
  }

  /** The binary search of the standard library over event times. */
  method Search(s: Slice, t: int) returns (i: nat)
    requires s.Valid() && Sorted(s.View())
    ensures i == FirstAtOrAfter(s.View(), t)
  {
    i := 0;
    var j := s.Len();
    while i < j
      invariant 0 <= i <= j <= s.Len()
      invariant i > 0 ==> s.View()[i - 1].observedAt < t
      invariant j < s.Len() ==> s.View()[j].observedAt >= t
    {
      var h := (i + j) / 2;
      if s.Get(h).observedAt < t {
        i := h + 1;
      } else {
        j := h;
      }
    }
    FirstAtOrAfterUnique(s.View(), t, i);
  }

  method Empty() returns (r: Slice)
    ensures r.Valid() && fresh(r.buf) && r.View() == []
  {
    var buf := new Sample[0];
    r := Slice(buf, 0, 0);
  }

  /** A copy in a backing array of its own. */
  method Copy(s: Slice) returns (r: Slice)
    requires s.Valid()
    ensures r.Valid() && fresh(r.buf) && r.View() == s.View()
  {
    var buf := new Sample[s.Len()](_ => ZERO_SAMPLE);
    forall i | 0 <= i < s.Len() { buf[i] := s.buf[s.lo + i]; }
    r := Slice(buf, 0, s.Len());
  }

  /** Appends a zero sample: in place while there is capacity, so that the array
      behind every other slice of it changes too, else in a larger copy. */
  method Append(s: Slice) returns (r: Slice)
    requires s.Valid()
    modifies s.buf
    ensures r.Valid() && (r.buf == s.buf || fresh(r.buf))
    ensures r.View() == old(s.View()) + [ZERO_SAMPLE]
  {
    if s.hi < s.buf.Length {
      s.buf[s.hi] := ZERO_SAMPLE;
      r := Slice(s.buf, s.lo, s.hi + 1);
    } else {
      var capacity: nat :| capacity > s.Len();
      var buf := new Sample[capacity](_ => ZERO_SAMPLE);
      forall i | 0 <= i < s.Len() { buf[i] := s.buf[s.lo + i]; }
      r := Slice(buf, 0, s.Len() + 1);
    }
  }

  /** Moves the samples from `index` on one place up, over the last one, and puts
      `x` into the gap. */
  method ShiftIn(s: Slice, index: nat, x: Sample)
    requires s.Valid() && index < s.Len()
    modifies s.buf
    ensures s.View() == old(s.View()[..index] + [x] + s.View()[index..s.Len() - 1])
  {
    ghost var before := s.View();
    forall i | s.lo + index < i < s.hi { s.buf[i] := s.buf[i - 1]; }
    s.buf[s.lo + index] := x;
    forall i | 0 <= i < |before|
      ensures s.View()[i] == (before[..index] + [x] + before[index..|before| - 1])[i]
    {
      assert i > index ==> s.buf[s.lo + i] == before[i - 1];
      assert i < index ==> s.buf[s.lo + i] == before[i];
    }
  }

  /** Inserts in event-time order, overwriting a sample at the same timestamp. */
  method InsertInPlace(s: Slice, x: Sample) returns (r: Slice)
    requires s.Valid() && Sorted(s.View())
    modifies s.buf
    ensures r.Valid() && (r.buf == s.buf || fresh(r.buf))
    ensures r.View() == Insert(old(s.View()), x)
  {
    hide Sorted, Insert, FirstAtOrAfter;
    ghost var before := s.View();
    InsertAtIndex(before, x);
    var index := Search(s, x.observedAt);
    if index < s.Len() && s.Get(index).observedAt == x.observedAt {
      Overwrite(s, index, x);
      r := s;
    } else {
      r := Append(s);
      ShiftIn(r, index, x);
      ShiftedView(before, index, x);
    }
  }

  method Overwrite(s: Slice, index: nat, x: Sample)
    requires s.Valid() && index < s.Len()
    modifies s.buf
    ensures s.View() == old(s.View())[index := x]
  {
    s.buf[s.lo + index] := x;
  }

  lemma ShiftedView(before: seq<Sample>, index: nat, x: Sample)
    requires index <= |before|
    ensures var grown := before + [ZERO_SAMPLE];
            grown[..index] + [x] + grown[index..|grown| - 1] == before[..index] + [x] + before[index..]
  {
    var grown := before + [ZERO_SAMPLE];
    assert grown[..index] == before[..index] && grown[index..|before|] == before[index..];
  }

  /** Keeps the samples from the cutoff on, in a copy if any is dropped; the
      newest sample is kept in any case. */
  method PruneSamples(values: Slice, cutoff: int) returns (r: Slice)
    requires values.Valid() && Sorted(values.View())
    ensures r.Valid() && (r == values || fresh(r.buf))
    ensures r.View() == Prune(values.View(), cutoff)
  {
    if values.Len() <= 1 { return values; }
    var first := Search(values, cutoff);
    if first == 0 { return values; }
    hide Sorted, FirstAtOrAfter;
    if first == values.Len() {
      PartView(values, values.Len() - 1, values.Len());
      r := Copy(Slice(values.buf, values.hi - 1, values.hi));
    } else {
      PartView(values, first, values.Len());
      r := Copy(Slice(values.buf, values.lo + first, values.hi));
    }
  }

  /** Keeps the `limit` newest samples, without copying. */
  method CapSamples(values: Slice, limit: nat) returns (r: Slice)
    requires values.Valid()
    ensures r.Valid() && r.buf == values.buf
    ensures r.View() == Cap(values.View(), limit)
  {
    if values.Len() > limit {
      PartView(values, values.Len() - limit, values.Len());
      r := Slice(values.buf, values.hi - limit, values.hi);
    } else {
      r := values;
    }
  }
}
