/** Splitting paths into their parts. */
module FsPath {
  import opened Numerals

  const SLASH: Char := '/' as int

  /** The characters before the first slash. */
  function UpToSlash(s: Text): (p: Text)
    ensures |p| <= |s| && s[..|p|] == p && SLASH !in p && (|p| < |s| ==> s[|p|] == SLASH)
  {
    if s == [] || s[0] == SLASH then [] else [s[0]] + UpToSlash(s[1..])
  }

  lemma {:induction false} UpToSlashIs(s: Text, k: nat)
    requires k <= |s| && SLASH !in s[..k] && (k < |s| ==> s[k] == SLASH)
    ensures UpToSlash(s) == s[..k]
  {
    var p := UpToSlash(s);
    assert forall i :: 0 <= i < k ==> s[i] == s[..k][i];
    assert forall i :: 0 <= i < |p| ==> s[i] == p[i];
  }

  /** What follows each slash, up to the next one; empty parts and what is before the first slash
      are dropped. */
  function Parts(s: Text): seq<Text>
    decreases |s|
  {
    if s == [] then []
    else if s[0] != SLASH then Parts(s[1..])
    else
      var p := UpToSlash(s[1..]);
      (if p == [] then [] else [p]) + Parts(s[1 + |p|..])
  }

  function PartsOf(path: Text): seq<Text> {
    if path == [SLASH] then [[SLASH]] else Parts(path)
  }

  /** One part, up to the next slash or the end. */
  lemma {:induction false} PartsStep(p: Text, rest: Text)
    requires SLASH !in p && (rest == [] || rest[0] == SLASH)
    ensures Parts([SLASH] + p + rest) == (if p == [] then [] else [p]) + Parts(rest)
  {
    var s := [SLASH] + p + rest;
    assert s[1..] == p + rest && (p + rest)[..|p|] == p;
    UpToSlashIs(p + rest, |p|);
    assert s[1 + |p|..] == rest;
  }

  lemma {:induction false} PartsSkip(s: Text)
    requires s != [] && s[0] != SLASH
    ensures Parts(s) == Parts(s[1..])
  {}

  lemma {:induction false} PartsOfNothing()
    ensures Parts([]) == []
  {}

  /** Up to the end of the part that starts at an index. */
  method TakePart(path: Text, start: nat) returns (i: nat, partBuf: Text)
    requires start <= |path|
    ensures start <= i <= |path| && partBuf == path[start..i] && SLASH !in partBuf && (i < |path| ==> path[i] == SLASH)
  {
    i, partBuf := start, [];
    while i < |path| && path[i] != SLASH
      invariant start <= i <= |path| && partBuf == path[start..i] && SLASH !in partBuf
    {
      partBuf := partBuf + [path[i]];
      i := i + 1;
    }
  }

  method ParsePath(path: Text) returns (parts: seq<Text>)
    ensures parts == PartsOf(path)
  {
    hide Parts;
    parts := [];
    if path == [SLASH] { return [[SLASH]]; }
    var i: int := 0;
    assert path[0..] == path;
    PartsOfNothing();
    while i < |path|
      invariant 0 <= i <= |path| && Parts(path) == parts + Parts(path[i..])
    {
      if path[i] == SLASH {
        ghost var from := i;
        i := i + 1;
        var partBuf;
        i, partBuf := TakePart(path, i);
        assert path[from..] == [SLASH] + partBuf + path[i..];
        PartsStep(partBuf, path[i..]);
        ghost var before, rest := parts, Parts(path[i..]);
        assert before + ([partBuf] + rest) == before + [partBuf] + rest && before + ([] + rest) == before + rest;
        if |partBuf| > 0 { parts := parts + [partBuf]; }
        i := i - 1;
      } else {
        PartsSkip(path[i..]);
        assert path[i..][1..] == path[i + 1..];
      }
      i := i + 1;
    }
    assert path[i..] == [];
  }

  // ---------- Any path ----------

  /** Each with a slash before it, empty ones too. */
  function Slashed(segments: seq<Text>): Text {
    if segments == [] then [] else [SLASH] + segments[0] + Slashed(segments[1..])
  }

  function NonEmpty(segments: seq<Text>): seq<Text> {
    if segments == [] then [] else (if segments[0] == [] then [] else [segments[0]]) + NonEmpty(segments[1..])
  }

  predicate SlashFree(segments: seq<Text>) { forall p :: p in segments ==> SLASH !in p }

  /** Whatever a path is made of, its parts are what stands behind its slashes, without the empty ones. */
  lemma {:induction false} PartsAre(head: Text, segments: seq<Text>)
    requires SLASH !in head && SlashFree(segments)
    ensures Parts(head + Slashed(segments)) == NonEmpty(segments)
    decreases |segments|, |head|
  {
    hide Parts;
    if head != [] {
      hide NonEmpty, Slashed, SlashFree;
      var all := head + Slashed(segments);
      assert all[0] == head[0] && all[1..] == head[1..] + Slashed(segments);
      PartsSkip(all);
      PartsAre(head[1..], segments);
    } else {
      assert [] + Slashed(segments) == Slashed(segments);
      if segments == [] {
        PartsOfNothing();
      } else {
        var first, more := segments[0], segments[1..];
        assert first in segments && forall p :: p in more ==> p in segments;
        assert [] + Slashed(more) == Slashed(more);
        PartsStep(first, Slashed(more));
        PartsAre([], more);
      }
    }
  }

  /** Every path is made of such segments. */
  lemma {:induction false} SegmentsOf(s: Text) returns (head: Text, segments: seq<Text>)
    ensures s == head + Slashed(segments) && SLASH !in head && SlashFree(segments)
    decreases |s|
  {
    head := UpToSlash(s);
    if |head| == |s| {
      segments := [];
      assert head + Slashed([]) == s;
    } else {
      var first, more := SegmentsOf(s[|head| + 1..]);
      segments := [first] + more;
      assert s == head + ([SLASH] + s[|head| + 1..]);
      assert [SLASH] + (first + Slashed(more)) == [SLASH] + first + Slashed(more);
    }
  }

  /** But a slash alone names the root. */
  lemma {:induction false} RootPath(path: Text)
    ensures PartsOf(['/' as int]) == [['/' as int]]
    ensures path != ['/' as int] ==> PartsOf(path) == Parts(path)
  {}

  // ---------- Names of archive members ----------

  predicate IsPart(p: Text) { p != [] && SLASH !in p && 0 !in p }

  /** "/a/b/c" */
  function Join(parts: seq<Text>): Text {
    if parts == [] then [] else [SLASH] + parts[0] + Join(parts[1..])
  }

  /** A path is split into the parts that it was made of, also with a slash at its end and
      something without a slash before it. */
  lemma {:induction false} PartsOfJoin(head: Text, parts: seq<Text>, tail: Text)
    requires SLASH !in head && (tail == [] || tail == [SLASH]) && forall p :: p in parts ==> IsPart(p)
    ensures Parts(head + Join(parts) + tail) == parts
    decreases |parts|, |head|
  {
    hide Parts, UpToSlash;
    PartsOfNothing();
    if head != [] {
      var all, rest := head + Join(parts) + tail, head[1..] + Join(parts) + tail;
      assert all[0] == head[0] && all[1..] == rest;
      PartsSkip(all);
      PartsOfJoin(head[1..], parts, tail);
    } else if parts == [] {
      assert [] + Join([]) + tail == tail;
      if tail != [] {
        assert [SLASH] + [] + [] == tail;
        PartsStep([], []);
      }
    } else {
      var p, rest := parts[0], [] + Join(parts[1..]) + tail;
      assert IsPart(p);
      assert [] + Join(parts) + tail == [SLASH] + p + rest;
      PartsStep(p, rest);
      PartsOfJoin([], parts[1..], tail);
    }
  }
}
