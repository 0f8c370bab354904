/** Byte ranges of one memory: what they hold, and what writing to several of them in turn leaves. */
module Spans {
  import opened Wrappers

  datatype Span = Span(at: nat, size: nat)

  ghost predicate Has(span: Span, x: nat) { span.at <= x < span.at + span.size }

  ghost predicate Covers(spans: seq<Span>, x: nat) { exists k :: 0 <= k < |spans| && Has(spans[k], x) }

  ghost predicate Holds(mem: seq<byte>, span: Span, data: seq<byte>) {
    span.at + span.size <= |mem| && |data| == span.size &&
    forall k :: 0 <= k < |data| ==> mem[span.at + k] == data[k]
  }

  ghost predicate HoldAll(mem: seq<byte>, spans: seq<Span>, data: seq<seq<byte>>) {
    |data| == |spans| && forall k :: 0 <= k < |spans| ==> Holds(mem, spans[k], data[k])
  }

  // x belongs to the k-th of the spans and to none after it.
  ghost predicate LastCover(spans: seq<Span>, k: nat, x: nat) {
    k < |spans| && Has(spans[k], x) && forall l :: k < l < |spans| ==> !Has(spans[l], x)
  }

  // The byte at x after the data have been written to the spans in turn: the last one's that x
  // belongs to, or the one that was there.
  ghost predicate ByteWritten(before: seq<byte>, after: seq<byte>, spans: seq<Span>, data: seq<seq<byte>>, x: nat)
    requires x < |before| == |after|
  {
    (!Covers(spans, x) ==> after[x] == before[x]) &&
    forall k: nat :: LastCover(spans, k, x) ==>
      k < |data| && x - spans[k].at < |data[k]| && after[x] == data[k][x - spans[k].at]
  }

  ghost predicate Written(before: seq<byte>, after: seq<byte>, spans: seq<Span>, data: seq<seq<byte>>) {
    |before| == |after| && forall x: nat :: x < |before| ==> ByteWritten(before, after, spans, data, x)
  }

  // Only the span has changed, to the data.
  ghost predicate Replaced(before: seq<byte>, after: seq<byte>, span: Span, data: seq<byte>) {
    |before| == |after| && Holds(after, span, data) &&
    forall x: nat :: x < |before| && !Has(span, x) ==> after[x] == before[x]
  }

  lemma CoversMore(spans: seq<Span>, x: nat)
    requires spans != []
    ensures Covers(spans, x) <==> Covers(spans[..|spans| - 1], x) || Has(spans[|spans| - 1], x)
  {
    var n := |spans| - 1;
    if Covers(spans, x) {
      var k :| 0 <= k < |spans| && Has(spans[k], x);
      assert k < n ==> spans[..n][k] == spans[k];
    }
    if Covers(spans[..n], x) {
      var k :| 0 <= k < n && Has(spans[..n][k], x);
      assert spans[k] == spans[..n][k];
    }
  }

  lemma LastCoverBefore(spans: seq<Span>, k: nat, x: nat)
    requires spans != [] && LastCover(spans, k, x) && k < |spans| - 1
    ensures LastCover(spans[..|spans| - 1], k, x) && !Has(spans[|spans| - 1], x)
  {
    var n := |spans| - 1;
    forall l | k < l < n ensures !Has(spans[..n][l], x) { assert !Has(spans[l], x); }
  }

  lemma ByteWrittenMore(before: seq<byte>, middle: seq<byte>, after: seq<byte>, spans: seq<Span>,
                        data: seq<seq<byte>>, x: nat)
    requires spans != [] && |data| == |spans| && x < |before| == |middle|
    requires ByteWritten(before, middle, spans[..|spans| - 1], data[..|spans| - 1], x)
    requires Replaced(middle, after, spans[|spans| - 1], data[|spans| - 1])
    ensures ByteWritten(before, after, spans, data, x)
  {
    var n := |spans| - 1;
    CoversMore(spans, x);
    forall k: nat | LastCover(spans, k, x)
      ensures x - spans[k].at < |data[k]| && after[x] == data[k][x - spans[k].at]
    {
      if k < n {
        LastCoverBefore(spans, k, x);
      } else {
        assert after[spans[n].at + (x - spans[n].at)] == data[n][x - spans[n].at];
      }
    }
  }

  /** Writing to one more span. */
  lemma WrittenMore(before: seq<byte>, middle: seq<byte>, after: seq<byte>, spans: seq<Span>, data: seq<seq<byte>>)
    requires spans != [] && |data| == |spans| && Written(before, middle, spans[..|spans| - 1], data[..|spans| - 1])
    requires Replaced(middle, after, spans[|spans| - 1], data[|spans| - 1])
    ensures Written(before, after, spans, data)
  {
    forall x: nat | x < |before| ensures ByteWritten(before, after, spans, data, x) {
      ByteWrittenMore(before, middle, after, spans, data, x);
    }
  }

  lemma WrittenNone(mem: seq<byte>)
    ensures Written(mem, mem, [], [])
  {
  }

  lemma OverwrittenReplaces(mem: seq<byte>, span: Span, data: seq<byte>)
    requires span.at + span.size <= |mem| && |data| == span.size
    ensures Replaced(mem, Overwritten(mem, span.at, data), span, data)
  {
  }

  // What writing to spans leaves of a span none of them meets.
  lemma HeldApart(before: seq<byte>, after: seq<byte>, spans: seq<Span>, data: seq<seq<byte>>, span: Span,
                  held: seq<byte>)
    requires Written(before, after, spans, data) && Holds(before, span, held)
    requires forall x: nat :: Has(span, x) ==> !Covers(spans, x)
    ensures Holds(after, span, held)
  {
    forall k | 0 <= k < |held| ensures after[span.at + k] == held[k] {
      var x := span.at + k;
      assert Has(span, x) && ByteWritten(before, after, spans, data, x);
    }
  }

  // The k-th span, unless a later one meets it, holds what was written to it.
  lemma HeldWritten(before: seq<byte>, after: seq<byte>, spans: seq<Span>, data: seq<seq<byte>>, k: nat)
    requires Written(before, after, spans, data) && k < |spans| == |data|
    requires |data[k]| == spans[k].size && spans[k].at + spans[k].size <= |before|
    requires forall l, x: nat :: k < l < |spans| && Has(spans[k], x) ==> !Has(spans[l], x)
    ensures Holds(after, spans[k], data[k])
  {
    forall m | 0 <= m < |data[k]| ensures after[spans[k].at + m] == data[k][m] {
      var x := spans[k].at + m;
      assert Has(spans[k], x) && LastCover(spans, k, x) && ByteWritten(before, after, spans, data, x);
    }
  }

  // Writing the same data from the same memory has one result.
  lemma WrittenIsUnique(before: seq<byte>, a: seq<byte>, b: seq<byte>, spans: seq<Span>, data: seq<seq<byte>>)
    requires Written(before, a, spans, data) && Written(before, b, spans, data)
    ensures a == b
  {
    forall x: nat | x < |before| ensures a[x] == b[x] {
      assert ByteWritten(before, a, spans, data, x) && ByteWritten(before, b, spans, data, x);
      if Covers(spans, x) { var k := LastOf(spans, x); }
    }
  }

  lemma {:induction false} LastOf(spans: seq<Span>, x: nat) returns (k: nat)
    requires Covers(spans, x)
    ensures LastCover(spans, k, x)
  {
    var n := |spans| - 1;
    if Has(spans[n], x) {
      k := n;
    } else {
      CoversMore(spans, x);
      k := LastOf(spans[..n], x);
      forall l | k < l < |spans| ensures !Has(spans[l], x) { assert l < n ==> spans[..n][l] == spans[l]; }
    }
  }

  lemma HoldAllIsUnique(mem: seq<byte>, spans: seq<Span>, a: seq<seq<byte>>, b: seq<seq<byte>>)
    requires HoldAll(mem, spans, a) && HoldAll(mem, spans, b)
    ensures a == b
  {
    forall k | 0 <= k < |spans|
      ensures a[k] == b[k]
    {
      assert Holds(mem, spans[k], a[k]) && Holds(mem, spans[k], b[k]);
    }
  }

  lemma ReplacedIsUnique(before: seq<byte>, a: seq<byte>, b: seq<byte>, span: Span, data: seq<byte>)
    requires Replaced(before, a, span, data) && Replaced(before, b, span, data)
    ensures a == b
  {
    forall x: nat | x < |before| ensures a[x] == b[x] {
      if Has(span, x) {
        var k := x - span.at;
        assert a[span.at + k] == data[k] && b[span.at + k] == data[k];
      }
    }
  }
}
