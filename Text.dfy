/** Sequence and string helpers with the semantics of the Python operations
    the pipeline relies on: `str.split(c)` for a one-character separator,
    `sep.join(parts)`, and cutting a sequence into consecutive windows
    `s[i : i + w]` for `i in range(0, len(s), w)`. */
module Text {

  /** All the sequences of `ss`, one after the other. */
  function Concat<T>(ss: seq<seq<T>>): seq<T>
  {
    if ss == [] then [] else ss[0] + Concat(ss[1..])
  }

  lemma {:induction false} ConcatAppend<T>(a: seq<seq<T>>, b: seq<seq<T>>)
    ensures Concat(a + b) == Concat(a) + Concat(b)
  {
    if a == [] {
      assert a + b == b;
    } else {
      assert (a + b)[1..] == a[1..] + b;
      ConcatAppend(a[1..], b);
    }
  }

  lemma {:induction false} ConcatMember<T>(ss: seq<seq<T>>, i: nat, x: T)
    requires i < |ss| && x in ss[i]
    ensures x in Concat(ss)
  {
    if i > 0 {
      ConcatMember(ss[1..], i - 1, x);
    }
  }

  /** The parts with an empty string between neighbours: what splitting on
      `sep` sees where the parts were joined with `sep` twice. */
  function Spaced(parts: seq<string>): (r: seq<string>)
    ensures |parts| >= 1 ==> |r| == 2 * |parts| - 1
    ensures forall i :: 0 <= i < |r| ==> r[i] == "" || r[i] in parts
  {
    if |parts| <= 1 then parts else [parts[0], ""] + Spaced(parts[1..])
  }

  lemma {:induction false} JoinDoubled(parts: seq<string>, sep: char)
    ensures Join(parts, [sep, sep]) == Join(Spaced(parts), [sep])
  {
    if |parts| > 1 {
      var tail := parts[1..];
      JoinDoubled(tail, sep);
      var rest := Join(Spaced(tail), [sep]);
      var spaced := [parts[0], ""] + Spaced(tail);
      assert spaced[0] == parts[0] && spaced[1..] == [""] + Spaced(tail);
      assert ([""] + Spaced(tail))[0] == "" && ([""] + Spaced(tail))[1..] == Spaced(tail);
      assert Join([""] + Spaced(tail), [sep]) == "" + [sep] + rest;
      assert parts[0] + [sep] + ("" + [sep] + rest) == parts[0] + [sep, sep] + rest;
    }
  }

  /** Splitting a double-separator join of separator-free pieces gives the
      pieces with an empty piece between neighbours. */
  lemma SplitJoinDoubled(parts: seq<string>, sep: char)
    requires |parts| >= 1
    requires forall i :: 0 <= i < |parts| ==> sep !in parts[i]
    ensures Split(Join(parts, [sep, sep]), sep) == Spaced(parts)
  {
    JoinDoubled(parts, sep);
    var spaced := Spaced(parts);
    forall i | 0 <= i < |spaced|
      ensures sep !in spaced[i]
    {
      if spaced[i] != "" {
        var j :| 0 <= j < |parts| && parts[j] == spaced[i];
      }
    }
    SplitJoin(spaced, sep);
  }

  /** `f` applied to every element of `s`, the results one after the other. */
  function FlatMap<T, U>(f: T -> seq<U>, s: seq<T>): seq<U>
  {
    if s == [] then [] else f(s[0]) + FlatMap(f, s[1..])
  }

  /** One turn of a loop that appends `f(s[i])`: what remains to be added
      shrinks by that element. */
  lemma FlatMapStep<T, U>(f: T -> seq<U>, s: seq<T>, i: nat, before: seq<U>, after: seq<U>)
    requires i < |s| && after == before + f(s[i])
    ensures before + FlatMap(f, s[i..]) == after + FlatMap(f, s[i + 1..])
  {
    assert s[i..][0] == s[i] && s[i..][1..] == s[i + 1..];
  }

  lemma {:induction false} FlatMapAppend<T, U>(f: T -> seq<U>, a: seq<T>, b: seq<T>)
    ensures FlatMap(f, a + b) == FlatMap(f, a) + FlatMap(f, b)
  {
    if a == [] {
      assert a + b == b;
    } else {
      assert (a + b)[0] == a[0] && (a + b)[1..] == a[1..] + b;
      FlatMapAppend(f, a[1..], b);
    }
  }

  /** Every element of the result comes from one element of the input. */
  lemma {:induction false} FlatMapOrigin<T, U>(f: T -> seq<U>, s: seq<T>, x: U) returns (i: nat)
    requires x in FlatMap(f, s)
    ensures i < |s| && x in f(s[i])
  {
    if x in f(s[0]) {
      i := 0;
    } else {
      i := FlatMapOrigin(f, s[1..], x);
      assert s[1..][i] == s[i + 1];
      i := i + 1;
    }
  }

  /** Python's `sep.join(parts)`. */
  function Join(parts: seq<string>, sep: string): string
  {
    if |parts| == 0 then ""
    else if |parts| == 1 then parts[0]
    else parts[0] + sep + Join(parts[1..], sep)
  }

  /** Python's `s.split(sep)` for a one-character separator: the pieces
      between separators, always at least one (`"".split(sep) == [""]`). */
  function Split(s: string, sep: char): (r: seq<string>)
    ensures |r| >= 1
    ensures forall i :: 0 <= i < |r| ==> sep !in r[i]
  {
    if |s| == 0 then [""]
    else
      var rest := Split(s[1..], sep);
      if s[0] == sep then [""] + rest
      else [[s[0]] + rest[0]] + rest[1..]
  }

  /** Joining the pieces with the separator gives back the string. */
  lemma {:induction false} JoinSplit(s: string, sep: char)
    ensures Join(Split(s, sep), [sep]) == s
  {
    if |s| > 0 {
      var rest := Split(s[1..], sep);
      JoinSplit(s[1..], sep);
      if s[0] == sep {
        assert ([""] + rest)[1..] == rest;
        assert s == [sep] + s[1..];
      } else {
        var parts := [[s[0]] + rest[0]] + rest[1..];
        if |rest| == 1 {
          assert s == [s[0]] + s[1..];
        } else {
          assert parts[1..] == rest[1..];
          assert s == [s[0]] + s[1..];
        }
      }
    }
  }

  lemma {:induction false} SplitNoSeparator(p: string, sep: char)
    requires sep !in p
    ensures Split(p, sep) == [p]
  {
    if |p| > 0 {
      SplitNoSeparator(p[1..], sep);
      assert [p[0]] + p[1..] == p;
    }
  }

  /** A separator-free prefix glues onto the first piece of the rest. */
  lemma {:induction false} SplitPrefix(p: string, t: string, sep: char)
    requires sep !in p
    ensures Split(p + t, sep) == [p + Split(t, sep)[0]] + Split(t, sep)[1..]
  {
    if |p| > 0 {
      SplitPrefix(p[1..], t, sep);
      assert (p + t)[1..] == p[1..] + t;
      assert [p[0]] + (p[1..] + Split(t, sep)[0]) == p + Split(t, sep)[0];
    } else {
      assert p + t == t;
      assert p + Split(t, sep)[0] == Split(t, sep)[0];
      assert [Split(t, sep)[0]] + Split(t, sep)[1..] == Split(t, sep);
    }
  }

  /** Splitting a join of separator-free pieces gives back the pieces. */
  lemma {:induction false} SplitJoin(parts: seq<string>, sep: char)
    requires |parts| >= 1
    requires forall i :: 0 <= i < |parts| ==> sep !in parts[i]
    ensures Split(Join(parts, [sep]), sep) == parts
  {
    if |parts| == 1 {
      SplitNoSeparator(parts[0], sep);
    } else {
      var tail := Join(parts[1..], [sep]);
      SplitJoin(parts[1..], sep);
      assert parts[0] + [sep] + tail == parts[0] + ([sep] + tail);
      SplitPrefix(parts[0], [sep] + tail, sep);
      assert ([sep] + tail)[1..] == tail;
      assert Split([sep] + tail, sep) == [""] + parts[1..];
      assert parts[0] + "" == parts[0];
      assert [parts[0]] + parts[1..] == parts;
    }
  }

  /** `[s[i : i + w] for i in range(0, len(s), w)]`. */
  function Windows<T>(s: seq<T>, w: nat): seq<seq<T>>
    requires w > 0
    decreases |s|
  {
    if |s| == 0 then []
    else if |s| <= w then [s]
    else [s[..w]] + Windows(s[w..], w)
  }

  lemma DivStep(x: int, w: int)
    requires w > 0 && x >= 0
    ensures (x + w) / w == x / w + 1
  {
    var q, r := x / w, x % w;
    var q', r' := (x + w) / w, (x + w) % w;
    assert x == q * w + r && 0 <= r < w;
    assert x + w == q' * w + r' && 0 <= r' < w;
    assert (q' - q - 1) * w == r - r' by {
      assert q' * w + r' == q * w + w + r;
    }
    if q' - q - 1 >= 1 {
      MulAtLeast(q' - q - 1, w);
    } else if q' - q - 1 <= -1 {
      MulAtLeast(q + 1 - q', w);
    }
  }

  lemma DivBelow(x: int, w: int)
    requires 0 <= x < w
    ensures x / w == 0
  {
  }

  lemma MulAtLeast(a: int, w: int)
    requires a >= 1 && w > 0
    ensures a * w >= w
  {
    assert a * w == (a - 1) * w + w;
    assert (a - 1) * w >= 0;
  }

  /** The windows concatenate back to `s`. */
  lemma {:induction false} WindowsConcat<T>(s: seq<T>, w: nat)
    requires w > 0
    ensures Concat(Windows(s, w)) == s
    decreases |s|
  {
    if |s| == 0 {
    } else if |s| <= w {
      assert Concat([s]) == s + Concat([]);
    } else {
      var rest := s[w..];
      WindowsConcat(rest, w);
      assert ([s[..w]] + Windows(rest, w))[1..] == Windows(rest, w);
      assert s[..w] + rest == s;
    }
  }

  /** There are ceil(|s| / w) windows. */
  lemma {:induction false} WindowsCount<T>(s: seq<T>, w: nat)
    requires w > 0
    ensures |Windows(s, w)| == (|s| + w - 1) / w
    decreases |s|
  {
    if |s| == 0 {
      DivBelow(w - 1, w);
    } else if |s| <= w {
      DivStep(|s| - 1, w);
      DivBelow(|s| - 1, w);
    } else {
      var rest := s[w..];
      WindowsCount(rest, w);
      var x := |rest| + w - 1;
      assert |s| + w - 1 == x + w;
      DivStep(x, w);
    }
  }

  /** Every window is non-empty and at most `w` long; all but the last are
      exactly `w` long. */
  lemma {:induction false} WindowsSizes<T>(s: seq<T>, w: nat)
    requires w > 0
    ensures forall i :: 0 <= i < |Windows(s, w)| ==> 0 < |Windows(s, w)[i]| <= w
    ensures forall i :: 0 <= i < |Windows(s, w)| - 1 ==> |Windows(s, w)[i]| == w
    decreases |s|
  {
    if |s| > w {
      var rest := s[w..];
      WindowsSizes(rest, w);
      assert forall i :: 1 <= i < |Windows(s, w)| ==> Windows(s, w)[i] == Windows(rest, w)[i - 1];
    }
  }

  /** The windows are a partition of `s` into ceil(|s| / w) consecutive
      non-empty pieces, each exactly `w` long except possibly the last. */
  lemma WindowsFacts<T>(s: seq<T>, w: nat)
    requires w > 0
    ensures Concat(Windows(s, w)) == s
    ensures |Windows(s, w)| == (|s| + w - 1) / w
    ensures forall i :: 0 <= i < |Windows(s, w)| ==> 0 < |Windows(s, w)[i]| <= w
    ensures forall i :: 0 <= i < |Windows(s, w)| - 1 ==> |Windows(s, w)[i]| == w
  {
    WindowsConcat(s, w);
    WindowsCount(s, w);
    WindowsSizes(s, w);
  }

  /** Every element of every window comes from `s`. */
  lemma WindowsElements<T>(s: seq<T>, w: nat, i: nat, x: T)
    requires w > 0 && i < |Windows(s, w)| && x in Windows(s, w)[i]
    ensures x in s
  {
    WindowsConcat(s, w);
    ConcatMember(Windows(s, w), i, x);
  }

  /** One turn of `for i in range(0, len(s), w)`: the window at `i` is
      `s[i : i + w]`, clamped to the end. */
  lemma WindowsAt<T>(s: seq<T>, w: nat, i: nat, end: nat)
    requires w > 0 && i < |s|
    requires end == if i + w < |s| then i + w else |s|
    ensures Windows(s[i..], w) == [s[i..end]] + Windows(s[end..], w)
  {
    var rest := s[i..];
    if |rest| <= w {
      assert s[i..end] == rest;
      assert s[end..] == [];
    } else {
      assert rest[..w] == s[i..end];
      assert rest[w..] == s[end..];
    }
  }
}
