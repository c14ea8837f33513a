/** The parts of Go's `strings` package the generator relies on: ASCII case
    mapping, and splitting on a one-character separator (any character); with
    `Join` to state splitting's round trip, and two general sequence helpers,
    `Regroup` and `Concat`. */
module Strings {
  import opened Wrappers

  /** `unicode.ToUpper` restricted to ASCII. */
  function UpperChar(c: char): char
  {
    if 'a' <= c <= 'z' then (c as int - 32) as char else c
  }

  /** `unicode.ToLower` restricted to ASCII. */
  function LowerChar(c: char): char
  {
    if 'A' <= c <= 'Z' then (c as int + 32) as char else c
  }

  lemma CaseMapping(c: char)
    ensures LowerChar(UpperChar(c)) == LowerChar(c)
    ensures UpperChar(LowerChar(c)) == UpperChar(c)
    ensures UpperChar(UpperChar(c)) == UpperChar(c)
  {
  }

  /** `strings.ToUpper`. */
  function ToUpper(s: string): (r: string)
    ensures |r| == |s|
  {
    seq(|s|, i requires 0 <= i < |s| => UpperChar(s[i]))
  }

  /** `strings.ToLower`. */
  function ToLower(s: string): (r: string)
    ensures |r| == |s|
  {
    seq(|s|, i requires 0 <= i < |s| => LowerChar(s[i]))
  }

  lemma ToLowerAppend(a: string, b: string)
    ensures ToLower(a + b) == ToLower(a) + ToLower(b)
  {
  }

  lemma ToLowerToUpper(s: string)
    ensures ToLower(ToUpper(s)) == ToLower(s)
  {
    forall i | 0 <= i < |s| ensures ToLower(ToUpper(s))[i] == ToLower(s)[i] {
      CaseMapping(s[i]);
    }
  }

  lemma ToLowerToLower(s: string)
    ensures ToLower(ToLower(s)) == ToLower(s)
  {
  }

  /** Number of occurrences of `c` in `s`. */
  function Count(s: string, c: char): nat
  {
    if s == [] then 0 else (if s[0] == c then 1 else 0) + Count(s[1..], c)
  }

  /** `s` with every `c` removed. */
  function Without(s: string, c: char): (r: string)
    ensures |r| + Count(s, c) == |s|
    ensures c !in r
  {
    if s == [] then [] else (if s[0] == c then [] else [s[0]]) + Without(s[1..], c)
  }

  lemma {:induction false} WithoutAppend(a: string, b: string, c: char)
    ensures Without(a + b, c) == Without(a, c) + Without(b, c)
  {
    if a != [] {
      assert (a + b)[1..] == a[1..] + b;
      WithoutAppend(a[1..], b, c);
    } else {
      assert a + b == b;
    }
  }

  lemma {:induction false} WithoutAbsent(s: string, c: char)
    requires c !in s
    ensures Without(s, c) == s
  {
    if s != [] {
      WithoutAbsent(s[1..], c);
    }
  }

  // General sequence helpers (not part of Go's `strings` package): the
  // buffers of the generator are sequences of fragments, and these regroup
  // and flatten them.

  /** Appending to what was written after `start` regroups. */
  lemma Regroup<T>(start: seq<T>, x: seq<T>, y: seq<T>)
    ensures (start + x) + y == start + (x + y)
  {
  }

  /** Concatenation of the parts, as writing them one after another into a buffer. */
  function Concat(parts: seq<string>): string
  {
    if parts == [] then [] else parts[0] + Concat(parts[1..])
  }

  lemma {:induction false} ConcatAppend(a: seq<string>, b: seq<string>)
    ensures Concat(a + b) == Concat(a) + Concat(b)
  {
    if a != [] {
      assert (a + b)[1..] == a[1..] + b;
      ConcatAppend(a[1..], b);
    } else {
      assert a + b == b;
    }
  }

  /** The parts joined with a one-character separator; the inverse that
      `Split` is stated against (the generator itself never joins). */
  function Join(parts: seq<string>, sep: char): string
    requires |parts| >= 1
  {
    if |parts| == 1 then parts[0] else parts[0] + [sep] + Join(parts[1..], sep)
  }

  /** `strings.Split(s, string(sep))`: every occurrence of `sep` cuts `s`;
      the empty string gives one empty part. */
  function Split(s: string, sep: char): (parts: seq<string>)
    ensures |parts| == Count(s, sep) + 1
    ensures forall i :: 0 <= i < |parts| ==> sep !in parts[i]
    ensures Join(parts, sep) == s
  {
    if s == [] then [[]]
    else
      var rest := Split(s[1..], sep);
      if s[0] == sep then
        assert Join([[]] + rest, sep) == [sep] + Join(rest, sep) by {
          assert ([[]] + rest)[1..] == rest;
        }
        [[]] + rest
      else
        var parts := [[s[0]] + rest[0]] + rest[1..];
        assert Join(parts, sep) == [s[0]] + Join(rest, sep) by {
          if |rest| > 1 {
            assert parts[1..] == rest[1..];
          }
        }
        parts
  }

  /** Index of the first `c` in `s`, or `|s|` when there is none. */
  function FirstIndex(s: string, c: char): (i: nat)
    ensures i <= |s|
    ensures c !in s[..i]
    ensures i < |s| ==> s[i] == c
  {
    if s == [] then 0
    else if s[0] == c then 0
    else
      var j := FirstIndex(s[1..], c);
      assert s[..j + 1] == [s[0]] + s[1..][..j];
      j + 1
  }

  /** `strings.SplitN(s, string(sep), 2)`: the part before the first `sep`
      and, when there is one, the part after it. */
  function SplitFirst(s: string, sep: char): (r: (string, Option<string>))
    ensures sep !in r.0
    ensures r.1.None? ==> r.0 == s
    ensures r.1.Some? ==> r.0 + [sep] + r.1.value == s
  {
    var i := FirstIndex(s, sep);
    if i == |s| then (s, None)
    else
      assert s == s[..i] + [sep] + s[i + 1..];
      (s[..i], Some(s[i + 1..]))
  }

  /** A separator not in `first` is found right after it. */
  lemma {:induction false} SplitFirstAt(first: string, rest: string, sep: char)
    requires sep !in first
    ensures FirstIndex(first + [sep] + rest, sep) == |first|
    ensures SplitFirst(first + [sep] + rest, sep) == (first, Some(rest))
  {
    var s := first + [sep] + rest;
    if first != [] {
      assert s[0] == first[0];
      assert s[1..] == first[1..] + [sep] + rest;
      SplitFirstAt(first[1..], rest, sep);
    }
    assert s[..|first|] == first;
    assert s[|first| + 1..] == rest;
  }
}
