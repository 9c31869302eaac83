/** The few text operations of Rust's `str` and slices that the codec
    relies on, written out so that their behaviour is part of the model. */
module Text {

  /** Index of the first `c` in `s`, or `|s|` when there is none. */
  function IndexOf(s: string, c: char): (i: nat)
    ensures i <= |s|
    ensures i < |s| ==> s[i] == c
    ensures c !in s[..i]
  {
    if s == [] then 0
    else if s[0] == c then 0
    else 1 + IndexOf(s[1..], c)
  }

  /** `str::split_once(c)` followed by `unwrap_or((s, ""))`: the text
      before the first `c` and the text after it, or all of `s` and the
      empty text when `s` has no `c`. */
  function SplitOnce(s: string, c: char): (r: (string, string))
    ensures r.0 == s[..IndexOf(s, c)]
    ensures IndexOf(s, c) < |s| ==> r.1 == s[IndexOf(s, c) + 1..]
    ensures IndexOf(s, c) == |s| ==> r.1 == []
  {
    var i := IndexOf(s, c);
    if i < |s| then (s[..i], s[i + 1..]) else (s, "")
  }

  lemma {:induction false} IndexOfAt(w: string, c: char, rest: string)
    requires c !in w
    ensures IndexOf(w + [c] + rest, c) == |w|
  {
    if w != [] {
      assert (w + [c] + rest)[1..] == w[1..] + [c] + rest;
      IndexOfAt(w[1..], c, rest);
    }
  }

  lemma {:induction false} IndexOfAbsent(s: string, c: char)
    requires c !in s
    ensures IndexOf(s, c) == |s|
  {
    if s != [] {
      IndexOfAbsent(s[1..], c);
    }
  }

  /** Splitting at the first `c` of `w + [c] + rest`, where `w` has no `c`. */
  lemma SplitOnceAt(w: string, c: char, rest: string)
    requires c !in w
    ensures SplitOnce(w + [c] + rest, c) == (w, rest)
  {
    IndexOfAt(w, c, rest);
    assert (w + [c] + rest)[..|w|] == w;
    assert (w + [c] + rest)[|w| + 1..] == rest;
  }

  /** Text without `c` does not split. */
  lemma SplitOnceNone(s: string, c: char)
    requires c !in s
    ensures SplitOnce(s, c) == (s, "")
  {
    IndexOfAbsent(s, c);
  }

  /** `str::trim_start_matches(c)`: drop every leading `c`. */
  function TrimStart(s: string, c: char): (r: string)
    ensures |r| <= |s|
    ensures r == [] || r[0] != c
  {
    if s != [] && s[0] == c then TrimStart(s[1..], c) else s
  }

  /** What trimming leaves is a suffix of its input. */
  lemma {:induction false} TrimStartSuffix(s: string, c: char)
    ensures TrimStart(s, c) == s[|s| - |TrimStart(s, c)|..]
  {
    if s != [] && s[0] == c {
      TrimStartSuffix(s[1..], c);
    }
  }

  /** `[T]::join(sep)` on text pieces: the pieces in order with one `sep`
      between neighbours; no pieces give the empty text. */
  function Join(pieces: seq<string>, sep: char): (r: string)
    ensures |pieces| > 0 ==> pieces[0] <= r
    ensures |pieces| > 1 ==> |r| > |pieces[0]| && r[|pieces[0]|] == sep
  {
    if |pieces| == 0 then ""
    else if |pieces| == 1 then pieces[0]
    else pieces[0] + [sep] + Join(pieces[1..], sep)
  }

  /** `Vec::reverse`, written so that the last element comes out first. */
  function Reverse<T>(s: seq<T>): (r: seq<T>)
    ensures |r| == |s|
  {
    if s == [] then [] else [s[|s| - 1]] + Reverse(s[..|s| - 1])
  }

  lemma {:induction false} ReverseAt<T>(s: seq<T>, k: nat)
    requires k < |s|
    ensures Reverse(s)[k] == s[|s| - 1 - k]
  {
    if k > 0 {
      ReverseAt(s[..|s| - 1], k - 1);
    }
  }

  /** Reversing twice gives the sequence back. */
  lemma ReverseReverse<T>(s: seq<T>)
    ensures Reverse(Reverse(s)) == s
  {
    forall k | 0 <= k < |s|
      ensures Reverse(Reverse(s))[k] == s[k]
    {
      ReverseAt(Reverse(s), k);
      ReverseAt(s, |s| - 1 - k);
    }
  }

  /** Splitting a join at its first separator gives the first piece and
      the join of the others, when no piece holds the separator. */
  lemma SplitOnceJoin(pieces: seq<string>, sep: char)
    requires |pieces| >= 2
    requires forall i :: 0 <= i < |pieces| ==> sep !in pieces[i]
    ensures SplitOnce(Join(pieces, sep), sep) == (pieces[0], Join(pieces[1..], sep))
  {
    SplitOnceAt(pieces[0], sep, Join(pieces[1..], sep));
  }

}
