/**
 * `parsePattern`: a route pattern or a request path becomes its list of
 * segments. Empty pieces between slashes are dropped and scanning stops right
 * after the first segment that starts with `*`, so a wildcard segment is
 * always the last one.
 */
module Patterns {
  import opened Strings

  /** A segment that starts with `*`: a wildcard. */
  predicate IsWild(seg: string)
  {
    |seg| > 0 && seg[0] == '*'
  }

  /** The scan of `parsePattern` over the pieces of the split: skip empty
      pieces, keep the others, stop after the first one starting with `*`. */
  function Segments(vs: seq<string>): (parts: seq<string>)
    ensures |parts| <= |vs|
    ensures forall i :: 0 <= i < |parts| ==> parts[i] != ""
    ensures forall i :: 0 <= i < |parts| - 1 ==> !IsWild(parts[i])
  {
    if vs == [] then []
    else if vs[0] == "" then Segments(vs[1..])
    else if vs[0][0] == '*' then [vs[0]]
    else [vs[0]] + Segments(vs[1..])
  }

  /** Every piece the scan keeps is one of the pieces it was given. */
  lemma {:induction false} SegmentsFromInput(vs: seq<string>)
    ensures forall i :: 0 <= i < |Segments(vs)| ==> Segments(vs)[i] in vs
  {
    if vs != [] {
      SegmentsFromInput(vs[1..]);
    }
  }

  /** `parsePattern(pattern)`: no segment is empty, none holds a `/`, and only
      the last one may start with `*`. */
  function ParsePattern(pattern: string): (parts: seq<string>)
    ensures forall i :: 0 <= i < |parts| ==> parts[i] != "" && '/' !in parts[i]
    ensures forall i :: 0 <= i < |parts| - 1 ==> !IsWild(parts[i])
  {
    SegmentsFromInput(Split(pattern, '/'));
    Segments(Split(pattern, '/'))
  }

  /** The scan from index `i` on, unfolded once. */
  lemma SegmentsStep(vs: seq<string>, i: nat)
    requires i < |vs|
    ensures Segments(vs[i..]) ==
              if vs[i] == "" then Segments(vs[i + 1..])
              else if vs[i][0] == '*' then [vs[i]]
              else [vs[i]] + Segments(vs[i + 1..])
  {
    assert vs[i..][1..] == vs[i + 1..];
  }

  /** The loop of `parsePattern`, appending to a local list and breaking at the
      first wildcard. */
  method ParsePatternLoop(pattern: string) returns (parts: seq<string>)
    ensures parts == ParsePattern(pattern)
  {
    var vs := Split(pattern, '/');
    parts := [];
    var i := 0;
    while i < |vs|
      invariant 0 <= i <= |vs|
      invariant parts + Segments(vs[i..]) == Segments(vs)
    {
      var item := vs[i];
      SegmentsStep(vs, i);
      if item != "" {
        parts := parts + [item];
        if item[0] == '*' {
          assert parts == Segments(vs);
          break;
        }
      }
      i := i + 1;
    }
    assert parts == Segments(vs) by {
      if i == |vs| {
        assert vs[i..] == [];
      }
    }
  }

  // ---------------------------------------------------------------------
  // An independent description: drop the empty pieces, then cut after the
  // first wildcard.

  /** The non-empty pieces, in order. */
  function NonEmpty(vs: seq<string>): (ts: seq<string>)
    ensures forall i :: 0 <= i < |ts| ==> ts[i] != ""
  {
    if vs == [] then []
    else if vs[0] == "" then NonEmpty(vs[1..])
    else [vs[0]] + NonEmpty(vs[1..])
  }

  /** The shortest prefix that contains the first wildcard, or everything. */
  function UpToWildcard(ts: seq<string>): seq<string>
  {
    if ts == [] then []
    else if IsWild(ts[0]) then [ts[0]]
    else [ts[0]] + UpToWildcard(ts[1..])
  }

  /** The scan is filtering followed by cutting at the first wildcard. */
  lemma {:induction false} SegmentsIsFilterThenCut(vs: seq<string>)
    ensures Segments(vs) == UpToWildcard(NonEmpty(vs))
  {
    if vs != [] {
      SegmentsIsFilterThenCut(vs[1..]);
    }
  }

  /** Without a wildcard, nothing is cut. */
  lemma {:induction false} UpToWildcardWithoutWildcard(ts: seq<string>)
    requires forall i :: 0 <= i < |ts| ==> !IsWild(ts[i])
    ensures UpToWildcard(ts) == ts
  {
    if ts != [] {
      UpToWildcardWithoutWildcard(ts[1..]);
    }
  }

  /** With the first wildcard at index `k`, exactly `k + 1` segments are kept. */
  lemma {:induction false} UpToWildcardAt(ts: seq<string>, k: nat)
    requires k < |ts| && IsWild(ts[k])
    requires forall j :: 0 <= j < k ==> !IsWild(ts[j])
    ensures UpToWildcard(ts) == ts[..k + 1]
  {
    if k > 0 {
      UpToWildcardAt(ts[1..], k - 1);
      assert ts[..k + 1] == [ts[0]] + ts[1..][..k];
    }
  }

  /** The non-empty `/`-separated tokens of `pattern`. */
  function Tokens(pattern: string): (ts: seq<string>)
    ensures forall i :: 0 <= i < |ts| ==> ts[i] != ""
  {
    NonEmpty(Split(pattern, '/'))
  }

  /** With no wildcard token, `parsePattern` returns exactly the non-empty
      tokens in their original order. */
  lemma ParsePatternWithoutWildcard(pattern: string)
    requires forall i :: 0 <= i < |Tokens(pattern)| ==> !IsWild(Tokens(pattern)[i])
    ensures ParsePattern(pattern) == Tokens(pattern)
  {
    SegmentsIsFilterThenCut(Split(pattern, '/'));
    UpToWildcardWithoutWildcard(Tokens(pattern));
  }

  /** With the first wildcard token at index `k`, `parsePattern` returns the
      tokens up to and including it, whatever follows. */
  lemma ParsePatternCutsAtWildcard(pattern: string, k: nat)
    requires k < |Tokens(pattern)| && IsWild(Tokens(pattern)[k])
    requires forall j :: 0 <= j < k ==> !IsWild(Tokens(pattern)[j])
    ensures ParsePattern(pattern) == Tokens(pattern)[..k + 1]
    ensures |ParsePattern(pattern)| == k + 1
  {
    SegmentsIsFilterThenCut(Split(pattern, '/'));
    UpToWildcardAt(Tokens(pattern), k);
  }

  /** The empty pattern and the root pattern have no segments. */
  lemma ParsePatternOfRoot()
    ensures ParsePattern("") == []
    ensures ParsePattern("/") == []
  {
    assert Split("", '/') == [""];
    assert Split("/", '/') == ["", ""];
  }

  // ---------------------------------------------------------------------
  // Round trip with `Join`.

  /** What `parsePattern` can return: non-empty segments without `/`, only the
      last of which may start with `*`. */
  predicate WellFormed(parts: seq<string>)
  {
    && (forall i :: 0 <= i < |parts| ==> parts[i] != "" && '/' !in parts[i])
    && (forall i :: 0 <= i < |parts| - 1 ==> !IsWild(parts[i]))
  }

  /** The scan keeps a well-formed list as it is. */
  lemma {:induction false} SegmentsOfWellFormed(parts: seq<string>)
    requires WellFormed(parts)
    ensures Segments(parts) == parts
  {
    if parts != [] {
      SegmentsOfWellFormed(parts[1..]);
    }
  }

  /** Writing well-formed segments as `/a/b/c` and parsing that gives them back. */
  lemma ParsePatternOfJoin(parts: seq<string>)
    requires WellFormed(parts)
    ensures ParsePattern("/" + Join(parts, '/')) == parts
  {
    var joined := Join(parts, '/');
    SplitAfterPiece("", '/', joined);
    assert "/" + joined == "" + ['/'] + joined;
    var vs := Split("/" + joined, '/');
    assert vs == [""] + Split(joined, '/');
    assert vs[1..] == Split(joined, '/');
    if parts == [] {
      assert Split(joined, '/') == [""];
      assert vs == ["", ""];
      assert Segments(vs) == Segments([""]) == Segments([]);
    } else {
      SplitJoin(parts, '/');
      SegmentsOfWellFormed(parts);
    }
  }

  /** Parsing is idempotent: the segments of a parse, written back as a path,
      parse to the same segments. */
  lemma ParsePatternIdempotent(pattern: string)
    ensures ParsePattern("/" + Join(ParsePattern(pattern), '/')) == ParsePattern(pattern)
  {
    ParsePatternOfJoin(ParsePattern(pattern));
  }
}
