/**
  The few operations on `str` that the modelled code uses, with Rust's
  semantics: `strip_prefix`, `split` on a single character and `ends_with`.
  Strings are sequences of characters.
 */
module Text {
  import opened Wrappers

  predicate HasPrefix(s: string, prefix: string)
  {
    |prefix| <= |s| && s[..|prefix|] == prefix
  }

  /** `str::strip_prefix`: the rest of `s` after `prefix`, if `s` starts with it. */
  function StripPrefix(s: string, prefix: string): (r: Option<string>)
    ensures r.Some? <==> HasPrefix(s, prefix)
    ensures r.Some? ==> s == prefix + r.value
  {
    if HasPrefix(s, prefix) then
      assert s == s[..|prefix|] + s[|prefix|..];
      Some(s[|prefix|..])
    else None
  }

  lemma StripPrefixOfConcat(prefix: string, rest: string)
    ensures StripPrefix(prefix + rest, prefix) == Some(rest)
  {
    assert (prefix + rest)[..|prefix|] == prefix;
    assert (prefix + rest)[|prefix|..] == rest;
  }

  /** `str::ends_with` for a single character. */
  predicate EndsWith(s: string, c: char)
  {
    |s| > 0 && s[|s| - 1] == c
  }

  /** Number of occurrences of `c` in `s`. */
  function Count(s: string, c: char): nat
  {
    if |s| == 0 then 0 else (if s[0] == c then 1 else 0) + Count(s[1..], c)
  }

  /**
    `str::split(c)` collected into a vector: the pieces between the
    occurrences of `c`, in order. The empty string splits into one empty
    piece, and there is always one more piece than separators.
   */
  function Split(s: string, c: char): (parts: seq<string>)
    ensures |parts| >= 1
  {
    if |s| == 0 then [[]]
    else
      var rest := Split(s[1..], c);
      if s[0] == c then [[]] + rest
      else [[s[0]] + rest[0]] + rest[1..]
  }

  /** The inverse of `Split`: the pieces glued back with `c` between them. */
  function Join(parts: seq<string>, c: char): string
    requires |parts| >= 1
  {
    if |parts| == 1 then parts[0] else parts[0] + [c] + Join(parts[1..], c)
  }

  lemma {:induction false} SplitCount(s: string, c: char)
    ensures |Split(s, c)| == Count(s, c) + 1
  {
    if |s| > 0 {
      SplitCount(s[1..], c);
    }
  }

  lemma {:induction false} SplitPiecesFree(s: string, c: char)
    ensures forall i :: 0 <= i < |Split(s, c)| ==> c !in Split(s, c)[i]
  {
    if |s| > 0 {
      SplitPiecesFree(s[1..], c);
      var rest := Split(s[1..], c);
      if s[0] != c {
        assert c !in rest[0];
        assert c !in [s[0]] + rest[0];
      }
    }
  }

  lemma {:induction false} JoinSplit(s: string, c: char)
    ensures Join(Split(s, c), c) == s
  {
    if |s| > 0 {
      JoinSplit(s[1..], c);
      var rest := Split(s[1..], c);
      if s[0] == c {
        assert Split(s, c)[1..] == rest;
      } else {
        var parts := Split(s, c);
        assert parts[1..] == rest[1..];
        if |rest| == 1 {
          assert Join(parts, c) == [s[0]] + rest[0];
        } else {
          assert Join(rest, c) == rest[0] + [c] + Join(rest[1..], c);
        }
      }
    }
    assert s == [] ==> Split(s, c) == [[]];
  }

  /** A string without the separator is a single piece. */
  lemma {:induction false} SplitWithout(s: string, c: char)
    requires c !in s
    ensures Split(s, c) == [s]
  {
    if |s| > 0 {
      assert c !in s[1..];
      SplitWithout(s[1..], c);
      assert [s[0]] + s[1..] == s;
    }
  }

  /** The first separator ends the first piece. */
  lemma {:induction false} SplitAtFirst(a: string, c: char, b: string)
    requires c !in a
    ensures Split(a + [c] + b, c) == [a] + Split(b, c)
  {
    if |a| == 0 {
      assert a + [c] + b == [c] + b;
      assert ([c] + b)[1..] == b;
    } else {
      assert (a + [c] + b)[1..] == a[1..] + [c] + b;
      assert c !in a[1..];
      SplitAtFirst(a[1..], c, b);
      assert [a[0]] + a[1..] == a;
    }
  }
}
