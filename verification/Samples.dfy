/** The record every scanner emits and the store persists. */
module Samples {
  datatype Sample = Sample(kind: string, key: string, title: string, bytes: int, extra: string, takenAt: int)

  function BytesOf(s: Sample): int { s.bytes }

  function BytesKey(s: Sample): real { s.bytes as real }

  function OfKind(samples: seq<Sample>, kind: string): seq<Sample> {
    if samples == [] then []
    else
      var last := samples[|samples| - 1];
      OfKind(samples[..|samples| - 1], kind) + if last.kind == kind then [last] else []
  }

  lemma {:induction false} OfKindAppend(a: seq<Sample>, b: seq<Sample>, kind: string)
    ensures OfKind(a + b, kind) == OfKind(a, kind) + OfKind(b, kind)
    decreases |b|
  {
    if b == [] {
      assert a + b == a;
    } else {
      assert (a + b)[..|a + b| - 1] == a + b[..|b| - 1];
      OfKindAppend(a, b[..|b| - 1], kind);
    }
  }

  lemma {:induction false} OfKindAll(s: seq<Sample>, kind: string)
    requires forall x :: x in s ==> x.kind == kind
    ensures OfKind(s, kind) == s
    decreases |s|
  {
    if s != [] {
      OfKindAll(s[..|s| - 1], kind);
    }
  }

  lemma {:induction false} OfKindNone(s: seq<Sample>, kind: string, other: string)
    requires kind != other && forall x :: x in s ==> x.kind == kind
    ensures OfKind(s, other) == []
    decreases |s|
  {
    if s != [] {
      OfKindNone(s[..|s| - 1], kind, other);
    }
  }
}
