/**
 * POSIX paths as pathlib builds them: a path is the sequence of its
 * components, the root being the empty sequence.  This module gives the
 * joining of rendered name parts (`Path(*parts)`, `out_dir / rel`), the
 * final suffix of a name (`PurePath.suffix`) and the removal of the `.j2`
 * marker (`with_suffix("")`).
 */
module Paths {
  import opened Results

  type Segment = string
  type Path = seq<Segment>

  function Parent(p: Path): (r: Path)
    ensures |p| > 0 ==> |r| == |p| - 1 && r <= p
  {
    if |p| == 0 then [] else p[..|p| - 1]
  }

  function Name(p: Path): Segment {
    if |p| == 0 then "" else p[|p| - 1]
  }

  /** A name as it appears in a directory listing: one component. */
  predicate IsPlainSegment(s: string) {
    s != "" && s != "." && '/' !in s
  }

  predicate IsAbsolute(s: string) {
    |s| > 0 && s[0] == '/'
  }

  /** The pieces of `s` between slashes, empty pieces included. */
  function Pieces(s: string): (r: seq<string>)
    ensures |r| > 0
  {
    if |s| == 0 then [""]
    else if s[0] == '/' then [""] + Pieces(s[1..])
    else
      var rest := Pieces(s[1..]);
      [[s[0]] + rest[0]] + rest[1..]
  }

  /** pathlib drops empty pieces and "." pieces; ".." is kept as a name. */
  function DropTrivial(pieces: seq<string>): Path {
    if |pieces| == 0 then []
    else (if pieces[0] == "" || pieces[0] == "." then [] else [pieces[0]]) + DropTrivial(pieces[1..])
  }

  /** The components pathlib parses out of one string argument. */
  function Components(s: string): Path {
    DropTrivial(Pieces(s))
  }

  lemma {:induction false} PiecesWithoutSlash(s: string)
    requires '/' !in s
    ensures Pieces(s) == [s]
  {
    if |s| > 0 {
      PiecesWithoutSlash(s[1..]);
      assert [s[0]] + s[1..] == s;
    }
  }

  /** A plain name is parsed to exactly itself. */
  lemma PlainSegmentComponents(s: string)
    requires IsPlainSegment(s)
    ensures Components(s) == [s]
  {
    PiecesWithoutSlash(s);
    assert DropTrivial([s]) == [s] + DropTrivial([]);
  }

  datatype Joined = Joined(absolute: bool, comps: Path)

  /**
   * `Path(*parts)`: the parts are joined with '/', an absolute part discards
   * everything before it, and the result is parsed into components.  The
   * joined path is absolute exactly when one of the parts is.
   */
  function JoinParts(parts: seq<string>): (j: Joined)
    ensures j.absolute <==> exists i :: 0 <= i < |parts| && IsAbsolute(parts[i])
  {
    if |parts| == 0 then Joined(false, [])
    else
      var prev := JoinParts(parts[..|parts| - 1]);
      var last := parts[|parts| - 1];
      assert forall i :: 0 <= i < |parts| - 1 ==> parts[..|parts| - 1][i] == parts[i];
      if IsAbsolute(last) then Joined(true, Components(last))
      else Joined(prev.absolute, prev.comps + Components(last))
  }

  /**
   * `out_dir / Path(*parts)`: an absolute joined path replaces `out_dir`, so
   * the destination lies below `outDir` unless one of the parts is absolute.
   */
  function Destination(outDir: Path, parts: seq<string>): (r: Path)
    ensures (forall i :: 0 <= i < |parts| ==> !IsAbsolute(parts[i])) ==> outDir <= r
  {
    var j := JoinParts(parts);
    if j.absolute then j.comps else outDir + j.comps
  }

  lemma {:induction false} JoinPlainParts(parts: seq<string>)
    requires forall i :: 0 <= i < |parts| ==> IsPlainSegment(parts[i])
    ensures JoinParts(parts) == Joined(false, parts)
  {
    if |parts| > 0 {
      var init := parts[..|parts| - 1];
      JoinPlainParts(init);
      PlainSegmentComponents(parts[|parts| - 1]);
      assert init + [parts[|parts| - 1]] == parts;
    }
  }

  /**
   * When every rendered part is a plain name, the destination is `outDir`
   * followed by the parts in their order, one component per part.
   */
  lemma DestinationOfPlainParts(outDir: Path, parts: seq<string>)
    requires forall i :: 0 <= i < |parts| ==> IsPlainSegment(parts[i])
    ensures Destination(outDir, parts) == outDir + parts
    ensures |Destination(outDir, parts)| == |outDir| + |parts|
  {
    JoinPlainParts(parts);
  }

  /**
   * A rendered part that starts with '/' discards the output directory and
   * every part before it: a value such as "/etc" sends the entry outside
   * `outDir`.
   */
  lemma {:induction false} AbsolutePartLeavesOutDir(outDir: Path, parts: seq<string>, i: nat)
    requires i < |parts| && IsAbsolute(parts[i])
    ensures JoinParts(parts) == JoinParts(parts[i..])
    ensures JoinParts(parts).absolute
    ensures Destination(outDir, parts) == JoinParts(parts[i..]).comps
  {
    var n := |parts|;
    var tail := parts[i..];
    assert tail[|tail| - 1] == parts[n - 1];
    if i == n - 1 {
      assert tail[..|tail| - 1] == [];
    } else {
      var init := parts[..n - 1];
      AbsolutePartLeavesOutDir(outDir, init, i);
      assert tail[..|tail| - 1] == init[i..];
    }
  }

  /** Index of the last '.' of a name (`str.rfind('.')`). */
  function LastDot(name: string): (r: Option<nat>)
    ensures r.Some? ==> r.value < |name| && name[r.value] == '.'
    ensures r.Some? ==> forall k :: r.value < k < |name| ==> name[k] != '.'
    ensures r.None? ==> forall k :: 0 <= k < |name| ==> name[k] != '.'
  {
    if |name| == 0 then None
    else if name[|name| - 1] == '.' then Some(|name| - 1)
    else LastDot(name[..|name| - 1])
  }

  /**
   * `PurePath.suffix` of a name: from the last dot, unless that dot leads or
   * ends the name.  A suffix is a proper ending of the name, a dot followed
   * by at least one character and no further dot.
   */
  function Suffix(name: string): (r: string)
    ensures r != "" ==> 2 <= |r| < |name| && name[|name| - |r|..] == r
    ensures r != "" ==> r[0] == '.' && forall k :: 1 <= k < |r| ==> r[k] != '.'
    ensures (exists k :: 0 < k < |name| - 1 && name[k] == '.' && forall m :: k < m < |name| ==> name[m] != '.') ==> r != ""
  {
    match LastDot(name)
    case None => ""
    case Some(i) => if 0 < i < |name| - 1 then name[i..] else ""
  }

  const Marker: string := ".j2"

  /** A name that ends in the marker and has something before it. */
  predicate HasMarker(name: string) {
    |name| > |Marker| && name[|name| - |Marker|..] == Marker
  }

  /** pathlib's suffix test agrees with the plain "ends in .j2" reading. */
  lemma MarkerSuffixIff(name: string)
    ensures Suffix(name) == Marker <==> HasMarker(name)
  {
    var n := |name|;
    if HasMarker(name) {
      assert name[n - 3] == name[n - 3..][0] == '.';
      assert name[n - 2] == name[n - 3..][1] == 'j';
      assert name[n - 1] == name[n - 3..][2] == '2';
      assert LastDot(name) == Some(n - 3);
    }
  }

  /**
   * The destination with the marker removed: when the final suffix of the
   * name is `.j2` exactly one `.j2` is dropped from the name and the parent
   * is kept; any other name is left alone.
   */
  function StripMarker(p: Path): (r: Path)
    ensures Parent(r) == Parent(p) && |r| == |p|
    ensures HasMarker(Name(p)) ==> Name(r) + Marker == Name(p)
    ensures !HasMarker(Name(p)) ==> r == p
  {
    var name := Name(p);
    MarkerSuffixIff(name);
    if Suffix(name) == Marker then
      var stripped := name[..|name| - |Marker|];
      assert name == stripped + Marker;
      Parent(p) + [stripped]
    else
      p
  }

  lemma StripMarkerExamples()
    ensures StripMarker(["src", "a.txt.j2"]) == ["src", "a.txt"]
    ensures StripMarker(["a.j2.j2"]) == ["a.j2"]
    ensures StripMarker(["a.txt"]) == ["a.txt"]
    ensures StripMarker([".j2"]) == [".j2"]
  {
    var n1, n2 := "a.txt.j2", "a.j2.j2";
    assert HasMarker(n1) && HasMarker(n2);
    assert n1 == "a.txt" + Marker && n2 == "a.j2" + Marker;
    assert !HasMarker("a.txt") && !HasMarker(".j2");
  }
}
