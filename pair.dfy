/**
 * Market identifiers of the form `BASE:QUOTE`.
 *
 * A token pair is read by splitting the identifier on the separator `:` the way
 * Go's `strings.Split` does, and is accepted exactly when that yields two
 * non-empty segments.
 */
module Pair {
  import opened Wrappers

  const Separator: char := ':'

  /** A parsed market: the base denomination and the quote denomination. */
  datatype AssetPair = AssetPair(baseDenom: string, quoteDenom: string)
  {
    /** Both denominations are non-empty and free of the separator. */
    predicate Valid() {
      baseDenom != "" && quoteDenom != "" && Separator !in baseDenom && Separator !in quoteDenom
    }
  }

  datatype PairError =
    | WrongSegmentCount(segments: nat)  // the identifier does not split into exactly two segments
    | EmptyDenom                        // one of the two segments is empty

  /** Number of occurrences of `c` in `s`. */
  function Count(s: string, c: char): nat
  {
    if s == [] then 0 else (if s[0] == c then 1 else 0) + Count(s[1..], c)
  }

  /**
   * The segments of `s` around every occurrence of `sep`, as `strings.Split`
   * returns them for a one-character separator: "" gives [""], and adjacent or
   * edge separators give empty segments.
   */
  function Split(s: string, sep: char): (parts: seq<string>)
    ensures |parts| >= 1
  {
    if s == [] then [""]
    else
      var rest := Split(s[1..], sep);
      if s[0] == sep then [""] + rest
      else [[s[0]] + rest[0]] + rest[1..]
  }

  /** The segments glued back together with `sep` between neighbours. */
  function Join(parts: seq<string>, sep: char): string
    requires |parts| >= 1
  {
    if |parts| == 1 then parts[0] else parts[0] + [sep] + Join(parts[1..], sep)
  }

  /** The identifier a pair is written as: `BASE:QUOTE`. */
  function PairString(p: AssetPair): string
  {
    p.baseDenom + [Separator] + p.quoteDenom
  }

  /**
   * The identifier format stated directly on characters: exactly one separator,
   * and it is neither the first nor the last character (so both sides are non-empty).
   */
  predicate PairFormat(s: string)
  {
    Count(s, Separator) == 1 && s[0] != Separator && s[|s| - 1] != Separator
  }

  /**
   * Parses a market identifier. Fails with the segment count when the
   * identifier does not contain exactly one separator, and with EmptyDenom when
   * it has exactly one but a side of it is empty. A successful parse is a valid
   * pair that prints back as the input.
   */
  function ParsePair(s: string): (r: Result<AssetPair, PairError>)
    ensures r.Success? ==> r.value.Valid() && PairString(r.value) == s
    ensures r.Failure? ==> (r.error.WrongSegmentCount? <==> Count(s, Separator) != 1)
    ensures r.Failure? && r.error.WrongSegmentCount? ==> r.error.segments == Count(s, Separator) + 1
  {
    var parts := Split(s, Separator);
    SplitCount(s, Separator);
    if |parts| != 2 then Failure(WrongSegmentCount(|parts|))
    else if parts[0] == "" || parts[1] == "" then Failure(EmptyDenom)
    else
      SplitJoin(s, Separator);
      SplitSegmentsFree(s, Separator, 0);
      SplitSegmentsFree(s, Separator, 1);
      Success(AssetPair(parts[0], parts[1]))
  }

  /** Splitting and re-joining gives the original string back. */
  lemma {:induction false} SplitJoin(s: string, sep: char)
    ensures Join(Split(s, sep), sep) == s
  {
    if s != [] {
      var rest := Split(s[1..], sep);
      SplitJoin(s[1..], sep);
      if s[0] == sep {
        assert ([""] + rest)[1..] == rest;
      } else if |rest| > 1 {
        var parts := [[s[0]] + rest[0]] + rest[1..];
        assert parts[1..] == rest[1..];
        calc {
          Join(parts, sep);
          [s[0]] + rest[0] + [sep] + Join(rest[1..], sep);
          [s[0]] + Join(rest, sep);
          [s[0]] + s[1..];
        }
      }
    }
  }

  /** One more segment than there are separators. */
  lemma {:induction false} SplitCount(s: string, sep: char)
    ensures |Split(s, sep)| == Count(s, sep) + 1
  {
    if s != [] {
      SplitCount(s[1..], sep);
    }
  }

  /** No segment contains the separator. */
  lemma {:induction false} SplitSegmentsFree(s: string, sep: char, i: nat)
    requires i < |Split(s, sep)|
    ensures sep !in Split(s, sep)[i]
  {
    if s != [] {
      var rest := Split(s[1..], sep);
      if s[0] == sep {
        if i > 0 {
          SplitSegmentsFree(s[1..], sep, i - 1);
        }
      } else if i == 0 {
        SplitSegmentsFree(s[1..], sep, 0);
      } else {
        SplitSegmentsFree(s[1..], sep, i);
      }
    }
  }

  /** A string without the separator is a single segment. */
  lemma {:induction false} SplitWithoutSeparator(a: string, sep: char)
    requires sep !in a
    ensures Split(a, sep) == [a]
  {
    if a != [] {
      SplitWithoutSeparator(a[1..], sep);
      assert [a[0]] + a[1..] == a;
    }
  }

  /** A separator-free prefix followed by the separator becomes the first segment. */
  lemma {:induction false} SplitAfterSegment(a: string, sep: char, b: string)
    requires sep !in a
    ensures Split(a + [sep] + b, sep) == [a] + Split(b, sep)
  {
    var s := a + [sep] + b;
    if a == [] {
      assert s[0] == sep && s[1..] == b;
    } else {
      assert s[0] == a[0] && s[1..] == a[1..] + [sep] + b;
      SplitAfterSegment(a[1..], sep, b);
      assert [a[0]] + a[1..] == a;
    }
  }

  /** Joining separator-free segments and splitting again gives the segments back. */
  lemma {:induction false} JoinSplit(parts: seq<string>, sep: char)
    requires |parts| >= 1
    requires forall i :: 0 <= i < |parts| ==> sep !in parts[i]
    ensures Split(Join(parts, sep), sep) == parts
  {
    if |parts| == 1 {
      SplitWithoutSeparator(parts[0], sep);
    } else {
      JoinSplit(parts[1..], sep);
      SplitAfterSegment(parts[0], sep, Join(parts[1..], sep));
      assert [parts[0]] + parts[1..] == parts;
    }
  }

  /** Every valid pair is read back from the identifier it prints as. */
  lemma ParsePairString(p: AssetPair)
    requires p.Valid()
    ensures ParsePair(PairString(p)) == Success(p)
  {
    var parts := [p.baseDenom, p.quoteDenom];
    assert Join(parts, Separator) == PairString(p) by {
      assert parts[1..] == [p.quoteDenom];
    }
    JoinSplit(parts, Separator);
  }

  /** The last segment is empty exactly when the string is empty or ends with the separator. */
  lemma {:induction false} SplitLastEmpty(s: string, sep: char)
    ensures var parts := Split(s, sep);
            parts[|parts| - 1] == "" <==> s == [] || s[|s| - 1] == sep
  {
    if s != [] {
      var rest := Split(s[1..], sep);
      SplitLastEmpty(s[1..], sep);
      if s[0] != sep && |rest| == 1 {
        assert Split(s, sep) == [[s[0]] + rest[0]];
      }
      if s[1..] != [] {
        assert s[|s| - 1] == s[1..][|s[1..]| - 1];
      }
    }
  }

  /**
   * The parser accepts exactly the identifiers with one separator that is
   * neither first nor last.
   */
  lemma ParsePairAccepts(s: string)
    ensures ParsePair(s).Success? <==> PairFormat(s)
  {
    var parts := Split(s, Separator);
    SplitCount(s, Separator);
    SplitLastEmpty(s, Separator);
    if |parts| == 2 && s != [] {
      assert parts[0] == "" <==> s[0] == Separator;
    }
  }
}
