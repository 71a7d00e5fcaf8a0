/** The few Python built-ins the listener relies on, stated as Dafny values:
    optional values and results, `str.split` on a one-character separator
    (with `sep.join` as its inverse), `needle in hay` on strings, and the
    truthiness of an optional string. */
module Builtins {

  datatype Option<T> = None | Some(value: T)

  /** A value or the exception that stopped its evaluation. */
  datatype Result<T, E> = Ok(value: T) | Err(error: E) {
    predicate IsFailure() { Err? }

    function PropagateFailure<U>(): Result<U, E>
      requires Err?
    {
      Err(error)
    }

    function Extract(): T
      requires Ok?
    {
      value
    }
  }

  /** Python truthiness of an optional string: `None` and `''` are false. */
  predicate Truthy(o: Option<string>) {
    o.Some? && o.value != ""
  }

  /** The number of occurrences of `x` in `s`. */
  function Count<T(==)>(s: seq<T>, x: T): nat
    decreases |s|
  {
    if s == [] then 0 else Count(s[..|s| - 1], x) + (if s[|s| - 1] == x then 1 else 0)
  }

  lemma {:induction false} CountConcat<T>(a: seq<T>, b: seq<T>, x: T)
    ensures Count(a + b, x) == Count(a, x) + Count(b, x)
    decreases |b|
  {
    if b == [] {
      assert a + b == a;
    } else {
      var b' := b[..|b| - 1];
      assert (a + b)[..|a + b| - 1] == a + b';
      CountConcat(a, b', x);
    }
  }

  /** Python `s.split(sep)`: the pieces between occurrences of `sep`, in order.
      It is never empty: `''.split(',')` is `['']`. */
  function Split(s: string, sep: char): (parts: seq<string>)
    ensures |parts| >= 1
    decreases |s|
  {
    if s == [] then [""]
    else
      var init := Split(s[..|s| - 1], sep);
      var last := s[|s| - 1];
      if last == sep then init + [""]
      else init[..|init| - 1] + [init[|init| - 1] + [last]]
  }

  /** Python `sep.join(parts)`. */
  function Join(parts: seq<string>, sep: char): string
    decreases |parts|
  {
    if parts == [] then ""
    else if |parts| == 1 then parts[0]
    else Join(parts[..|parts| - 1], sep) + [sep] + parts[|parts| - 1]
  }

  /** No piece of `parts` holds the separator. */
  predicate SeparatorFree(parts: seq<string>, sep: char) {
    forall i :: 0 <= i < |parts| ==> sep !in parts[i]
  }

  lemma JoinExtendLast(parts: seq<string>, x: char, sep: char)
    requires |parts| >= 1
    ensures Join(parts[..|parts| - 1] + [parts[|parts| - 1] + [x]], sep) == Join(parts, sep) + [x]
  {
    var n := |parts|;
    var q := parts[..n - 1] + [parts[n - 1] + [x]];
    if n > 1 {
      assert q[..n - 1] == parts[..n - 1];
    }
  }

  lemma JoinAppendEmpty(parts: seq<string>, sep: char)
    requires |parts| >= 1
    ensures Join(parts + [""], sep) == Join(parts, sep) + [sep]
  {
    assert (parts + [""])[..|parts|] == parts;
  }

  /** Splitting yields one more piece than there are separators, no piece
      holds the separator, and joining the pieces gives back the string. */
  lemma {:induction false} SplitJoin(s: string, sep: char)
    ensures |Split(s, sep)| == Count(s, sep) + 1
    ensures SeparatorFree(Split(s, sep), sep)
    ensures Join(Split(s, sep), sep) == s
    decreases |s|
  {
    if s != [] {
      var s' := s[..|s| - 1];
      var x := s[|s| - 1];
      assert s == s' + [x];
      SplitJoin(s', sep);
      var init := Split(s', sep);
      if x == sep {
        JoinAppendEmpty(init, sep);
      } else {
        JoinExtendLast(init, x, sep);
        var k := |init| - 1;
        assert forall i :: 0 <= i < k ==> Split(s, sep)[i] == init[i];
        assert Split(s, sep)[k] == init[k] + [x];
      }
    }
  }

  /** Splitting a string that ends in separator-free text `w`: `w` extends
      the last piece. */
  lemma {:induction false} SplitAppendFree(t: string, w: string, sep: char)
    requires sep !in w
    ensures var p := Split(t, sep);
            Split(t + w, sep) == p[..|p| - 1] + [p[|p| - 1] + w]
    decreases |w|
  {
    var p := Split(t, sep);
    var m := |p| - 1;
    if w == [] {
      assert t + w == t;
      assert p[m] + w == p[m];
      assert p[..m] + [p[m]] == p;
    } else {
      var w' := w[..|w| - 1];
      var x := w[|w| - 1];
      assert x != sep;
      assert (t + w)[..|t + w| - 1] == t + w';
      assert (t + w)[|t + w| - 1] == x;
      SplitAppendFree(t, w', sep);
      var init := Split(t + w', sep);
      assert init == p[..m] + [p[m] + w'];
      assert Split(t + w, sep) == init[..|init| - 1] + [init[|init| - 1] + [x]];
      assert init[..|init| - 1] == p[..m];
      assert init[|init| - 1] + [x] == p[m] + w;
    }
  }

  lemma SplitAfterSeparator(t: string, sep: char)
    ensures Split(t + [sep], sep) == Split(t, sep) + [""]
  {
    var u := t + [sep];
    assert u[..|u| - 1] == t;
  }

  /** `split` undoes `join` when no piece holds the separator. */
  lemma {:induction false} JoinSplit(parts: seq<string>, sep: char)
    requires |parts| >= 1
    requires SeparatorFree(parts, sep)
    ensures Split(Join(parts, sep), sep) == parts
    decreases |parts|
  {
    var n := |parts|;
    if n == 1 {
      SplitAppendFree("", parts[0], sep);
      assert "" + parts[0] == parts[0];
    } else {
      var init := parts[..n - 1];
      var last := parts[n - 1];
      assert SeparatorFree(init, sep) by {
        forall i | 0 <= i < |init| ensures sep !in init[i] {
          assert init[i] == parts[i];
        }
      }
      JoinSplit(init, sep);
      var t := Join(init, sep) + [sep];
      SplitAfterSeparator(Join(init, sep), sep);
      assert sep !in last;
      SplitAppendFree(t, last, sep);
      assert Join(parts, sep) == t + last;
      var q := init + [""];
      assert q[..|q| - 1] == init;
      assert q[|q| - 1] + last == last;
      assert init + [last] == parts;
    }
  }

  /** `needle` occurs in `hay` starting at position `i`. */
  predicate OccursAt(hay: string, needle: string, i: nat) {
    i + |needle| <= |hay| && hay[i..i + |needle|] == needle
  }

  /** Python `needle in hay` on strings: `needle` occurs as a contiguous
      piece of `hay` (the empty string occurs in every string). */
  predicate Contains(hay: string, needle: string) {
    exists i: nat :: i <= |hay| && OccursAt(hay, needle, i)
  }
}
