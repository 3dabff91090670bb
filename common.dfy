/** Values and string helpers shared by the retrieval and ingestion models. */
module Common {

  datatype Option<+T> = None | Some(value: T)

  /** The outcome of a call that can raise: its value, or the text of the exception. */
  datatype Result<+T, +E> = Ok(value: T) | Err(error: E)

  /** `pat` occurs in `s` starting at index `i`. */
  predicate OccursAt(s: string, pat: string, i: nat)
  {
    i + |pat| <= |s| && s[i..i + |pat|] == pat
  }

  /** `pat` occurs nowhere in `s`. */
  ghost predicate Free(s: string, pat: string)
  {
    forall i: nat :: !OccursAt(s, pat, i)
  }

  /** The first index at or after `from` where `pat` occurs in `s`, as `str.find` does. */
  function Find(s: string, pat: string, from: nat): (r: Option<nat>)
    ensures r.Some? ==> from <= r.value && r.value + |pat| <= |s|
    decreases |s| - from
  {
    if from + |pat| > |s| then None
    else if s[from..from + |pat|] == pat then Some(from)
    else Find(s, pat, from + 1)
  }

  /** `Find` returns the first occurrence at or after `from`, and nothing
      exactly when there is none. */
  lemma {:induction false} FindSpec(s: string, pat: string, from: nat)
    ensures var r := Find(s, pat, from);
      (r.Some? ==> from <= r.value && OccursAt(s, pat, r.value)) &&
      (r.Some? ==> forall j: nat :: from <= j < r.value ==> !OccursAt(s, pat, j)) &&
      (r.None? ==> forall j: nat :: from <= j ==> !OccursAt(s, pat, j))
    decreases |s| - from
  {
    if from + |pat| <= |s| && s[from..from + |pat|] != pat {
      FindSpec(s, pat, from + 1);
    }
  }

  /** The characters of an occurrence, one by one. */
  lemma OccursAtChars(s: string, pat: string, i: nat, k: nat)
    requires OccursAt(s, pat, i) && k < |pat|
    ensures s[i + k] == pat[k]
  {
    assert s[i..i + |pat|][k] == s[i + k];
  }

  /** No occurrence of `pat` in `pre + x + pat + rest` starts inside `x` when
      `x` is free of `pat` and the first character of `pat` does not reappear
      later in it. */
  lemma NoOccurrenceInside(pre: string, x: string, pat: string, rest: string, p: nat)
    requires |pat| > 0
    requires forall k :: 1 <= k < |pat| ==> pat[k] != pat[0]
    requires Free(x, pat)
    requires |pre| <= p < |pre| + |x|
    ensures !OccursAt(pre + x + pat + rest, pat, p)
  {
    var s := pre + x + pat + rest;
    var at := |pre| + |x|;
    if OccursAt(s, pat, p) {
      if p + |pat| <= at {
        var q := p - |pre|;
        forall k | 0 <= k < |pat|
          ensures x[q + k] == pat[k]
        {
          OccursAtChars(s, pat, p, k);
          assert s[p + k] == x[q + k];
        }
        assert x[q..q + |pat|] == pat;
        assert OccursAt(x, pat, q);
        assert false;
      } else {
        OccursAtChars(s, pat, p, at - p);
        assert false;
      }
    }
  }

  /** So, when `x` is free of such a pattern, the copy written right after `x`
      is the first occurrence at or after `|pre|`. */
  lemma FindAfterFree(pre: string, x: string, pat: string, rest: string)
    requires |pat| > 0
    requires forall k :: 1 <= k < |pat| ==> pat[k] != pat[0]
    requires Free(x, pat)
    ensures Find(pre + x + pat + rest, pat, |pre|) == Some(|pre| + |x|)
  {
    var s := pre + x + pat + rest;
    var at := |pre| + |x|;
    assert s[at..at + |pat|] == pat;
    assert OccursAt(s, pat, at);
    FindSpec(s, pat, |pre|);
    var r := Find(s, pat, |pre|);
    if r.Some? && r.value < at {
      NoOccurrenceInside(pre, x, pat, rest, r.value);
    }
  }

  /** An occurrence that starts after the end of `x` is an occurrence in `y`. */
  lemma OccursInSuffix(x: string, y: string, pat: string, i: nat)
    requires |x| <= i
    requires OccursAt(x + y, pat, i)
    ensures OccursAt(y, pat, i - |x|)
  {
    assert y[i - |x|..i - |x| + |pat|] == (x + y)[i..i + |pat|];
  }

  /** A string lacking one of the characters of `pat` cannot contain `pat`. */
  lemma FreeOfMissingChar(s: string, pat: string, k: nat)
    requires k < |pat|
    requires forall j :: 0 <= j < |s| ==> s[j] != pat[k]
    ensures Free(s, pat)
  {
    forall i: nat | OccursAt(s, pat, i)
      ensures false
    {
      OccursAtChars(s, pat, i, k);
    }
  }

  /** `parts` joined with `sep` between neighbours, as Python's `sep.join(parts)`. */
  function Join(parts: seq<string>, sep: string): string
  {
    if |parts| == 0 then ""
    else if |parts| == 1 then parts[0]
    else parts[0] + sep + Join(parts[1..], sep)
  }

  /** Total length of the parts. */
  function TotalLength(parts: seq<string>): nat
  {
    if parts == [] then 0 else |parts[0]| + TotalLength(parts[1..])
  }

  /** The joined string holds every part and one separator between each neighbouring pair. */
  lemma {:induction false} JoinLength(parts: seq<string>, sep: string)
    ensures |parts| > 0 ==> |Join(parts, sep)| == TotalLength(parts) + |sep| * (|parts| - 1)
    ensures |parts| == 0 ==> Join(parts, sep) == ""
  {
    if |parts| > 1 {
      JoinLength(parts[1..], sep);
    }
  }

  /** Joining two non-empty lists is joining each and putting one separator between. */
  lemma {:induction false} JoinAppend(a: seq<string>, b: seq<string>, sep: string)
    requires |a| > 0 && |b| > 0
    ensures Join(a + b, sep) == Join(a, sep) + sep + Join(b, sep)
  {
    if |a| == 1 {
      assert (a + b)[1..] == b;
    } else {
      assert (a + b)[1..] == a[1..] + b;
      JoinAppend(a[1..], b, sep);
    }
  }

  /** Where part `i` begins in the joined string. */
  function Offset(parts: seq<string>, sep: string, i: nat): nat
    requires i <= |parts|
  {
    if i == 0 then 0 else |parts[0]| + |sep| + Offset(parts[1..], sep, i - 1)
  }

  /** Part `i` stands at its offset in the joined string. */
  lemma {:induction false} JoinPartAt(parts: seq<string>, sep: string, i: nat)
    requires i < |parts|
    ensures Offset(parts, sep, i) + |parts[i]| <= |Join(parts, sep)|
    ensures Join(parts, sep)[Offset(parts, sep, i)..Offset(parts, sep, i) + |parts[i]|] == parts[i]
  {
    if i == 0 {
      JoinFirstPart(parts, sep);
    } else {
      JoinPartAt(parts[1..], sep, i - 1);
      JoinPartShift(parts, sep, i);
    }
  }

  /** The joined string begins with the first part. */
  lemma JoinFirstPart(parts: seq<string>, sep: string)
    requires |parts| > 0
    ensures |parts[0]| <= |Join(parts, sep)|
    ensures Join(parts, sep)[..|parts[0]|] == parts[0]
  {
    if |parts| > 1 {
      var rest := sep + Join(parts[1..], sep);
      assert Join(parts, sep) == parts[0] + rest;
      assert (parts[0] + rest)[..|parts[0]|] == parts[0];
    }
  }

  /** Where part `i - 1` of the tail stands in the tail's join, part `i`
      stands in the whole join. */
  lemma JoinPartShift(parts: seq<string>, sep: string, i: nat)
    requires 0 < i < |parts|
    requires Offset(parts[1..], sep, i - 1) + |parts[i]| <= |Join(parts[1..], sep)|
    requires Join(parts[1..], sep)[Offset(parts[1..], sep, i - 1)..Offset(parts[1..], sep, i - 1) + |parts[i]|] == parts[i]
    ensures Offset(parts, sep, i) + |parts[i]| <= |Join(parts, sep)|
    ensures Join(parts, sep)[Offset(parts, sep, i)..Offset(parts, sep, i) + |parts[i]|] == parts[i]
  {
    var head := parts[0] + sep;
    var tail := Join(parts[1..], sep);
    assert Join(parts, sep) == head + tail;
    var o := Offset(parts[1..], sep, i - 1);
    SliceOfAppend(head, tail, o, o + |parts[i]|);
  }

  /** A separator follows part `i` in the joined string, unless it is the last. */
  lemma {:induction false} JoinSepAfter(parts: seq<string>, sep: string, i: nat)
    requires i + 1 < |parts|
    ensures Offset(parts, sep, i) + |parts[i]| + |sep| <= |Join(parts, sep)|
    ensures Join(parts, sep)[Offset(parts, sep, i) + |parts[i]|..Offset(parts, sep, i) + |parts[i]| + |sep|] == sep
  {
    var head := parts[0] + sep;
    var tail := Join(parts[1..], sep);
    assert Join(parts, sep) == head + tail;
    if i > 0 {
      JoinSepAfter(parts[1..], sep, i - 1);
      assert parts[1..][i - 1] == parts[i];
      var o := Offset(parts[1..], sep, i - 1) + |parts[i]|;
      SliceOfAppend(head, tail, o, o + |sep|);
    }
  }

  /** Every part appears, in order, at its offset in the joined string, and a
      separator follows every part but the last. */
  lemma JoinAt(parts: seq<string>, sep: string, i: nat)
    requires i < |parts|
    ensures Offset(parts, sep, i) + |parts[i]| <= |Join(parts, sep)|
    ensures Join(parts, sep)[Offset(parts, sep, i)..Offset(parts, sep, i) + |parts[i]|] == parts[i]
    ensures i + 1 < |parts| ==>
      Offset(parts, sep, i) + |parts[i]| + |sep| <= |Join(parts, sep)| &&
      Join(parts, sep)[Offset(parts, sep, i) + |parts[i]|..Offset(parts, sep, i) + |parts[i]| + |sep|] == sep
  {
    JoinPartAt(parts, sep, i);
    if i + 1 < |parts| {
      JoinSepAfter(parts, sep, i);
    }
  }

  /** Slicing the right operand of a concatenation. */
  lemma SliceOfAppend(a: string, b: string, m: nat, n: nat)
    requires m <= n <= |b|
    ensures (a + b)[|a| + m..|a| + n] == b[m..n]
  {
  }

  /** Dropping the last element of `a + b`, for a non-empty `b`, drops it from `b`. */
  lemma DropLastOfAppend<T>(a: seq<T>, b: seq<T>)
    requires b != []
    ensures (a + b)[..|a + b| - 1] == a + b[..|b| - 1]
    ensures (a + b)[|a + b| - 1] == b[|b| - 1]
  {
  }

  /** The prefix of length `i + 1` ends with `s[i]` after the prefix of length `i`. */
  lemma DropLastOfPrefix<T>(s: seq<T>, i: nat)
    requires i < |s|
    ensures s[..i + 1][..i] == s[..i]
    ensures s[..i + 1][i] == s[i]
  {
  }

  /** `f` applied to each element of `xs`, the results concatenated in order. */
  function FlatMap<T, U>(xs: seq<T>, f: T -> seq<U>): seq<U>
  {
    if xs == [] then [] else FlatMap(xs[..|xs| - 1], f) + f(xs[|xs| - 1])
  }

  /** Mapping `a + b` maps `a`, then `b`. */
  lemma {:induction false} FlatMapAppend<T, U>(a: seq<T>, b: seq<T>, f: T -> seq<U>)
    ensures FlatMap(a + b, f) == FlatMap(a, f) + FlatMap(b, f)
    decreases |b|
  {
    if b == [] {
      assert a + b == a;
    } else {
      DropLastOfAppend(a, b);
      FlatMapAppend(a, b[..|b| - 1], f);
    }
  }
}
