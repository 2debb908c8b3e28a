/** `find_project_root` of custom_libs/compare_images.py: walk up from a
    start directory to the nearest one holding a project marker. Paths
    follow POSIX `os.path`. */
module ProjectRoot {
  import opened Wrappers

  /** The markers used when the caller gives none. */
  const DefaultMarkers: seq<string> :=
    [".git", "pyproject.toml", "setup.cfg", "requirements.txt", "Pipfile", ".hg", ".svn"]

  predicate AllSlashes(s: string) {
    forall i :: 0 <= i < |s| ==> s[i] == '/'
  }

  /** Index just past the last '/' of `p`, or 0 when there is none. */
  function AfterLastSlash(p: string): (i: nat)
    ensures i <= |p|
    ensures i > 0 ==> p[i - 1] == '/'
    ensures forall k :: i <= k < |p| ==> p[k] != '/'
  {
    if p == [] then 0
    else if p[|p| - 1] == '/' then |p|
    else AfterLastSlash(p[..|p| - 1])
  }

  /** `s.rstrip('/')`. */
  function TrimTrailingSlashes(s: string): (r: string)
    ensures |r| <= |s| && r == s[..|r|]
    ensures r == [] || r[|r| - 1] != '/'
    ensures forall k :: |r| <= k < |s| ==> s[k] == '/'
  {
    if s != [] && s[|s| - 1] == '/' then TrimTrailingSlashes(s[..|s| - 1]) else s
  }

  /** POSIX `os.path.dirname`: everything before the last '/', without its
      trailing slashes unless it is made of slashes only. */
  function DirName(p: string): (r: string)
    ensures |r| <= |p| && r == p[..|r|]
    ensures r == p || |r| < |p|
  {
    var head := p[..AfterLastSlash(p)];
    if head != [] && !AllSlashes(head) then
      TrimTrailingSlashes(head)
    else head
  }

  /** `/` is its own parent; a plain name has the empty parent, and so has
      the empty path. */
  lemma DirNameExamples()
    ensures DirName("/") == "/"
    ensures DirName("/srv/app") == "/srv"
    ensures DirName("/srv") == "/"
    ensures DirName("app") == "" && DirName("") == ""
  {
    assert AfterLastSlash("/srv/app") == 5 by {
      assert "/srv/app"[..7] == "/srv/ap" && "/srv/ap"[..6] == "/srv/a" && "/srv/a"[..5] == "/srv/";
      assert AfterLastSlash("/srv/") == 5;
      assert AfterLastSlash("/srv/a") == 5;
      assert AfterLastSlash("/srv/ap") == 5;
    }
    assert DirName("/srv/app") == "/srv" by {
      assert "/srv/app"[..5] == "/srv/" && "/srv/"[..4] == "/srv";
      assert !AllSlashes("/srv/") by { assert "/srv/"[1] != '/'; }
      assert TrimTrailingSlashes("/srv") == "/srv";
    }
    assert AfterLastSlash("/srv") == 1 by {
      assert "/srv"[..3] == "/sr" && "/sr"[..2] == "/s" && "/s"[..1] == "/";
      assert AfterLastSlash("/") == 1;
      assert AfterLastSlash("/s") == 1;
      assert AfterLastSlash("/sr") == 1;
    }
    assert "/srv"[..1] == "/";
    assert AfterLastSlash("app") == 0 by {
      assert "app"[..2] == "ap" && "ap"[..1] == "a" && "a"[..0] == "";
      assert AfterLastSlash("a") == 0;
      assert AfterLastSlash("ap") == 0;
    }
  }

  /** POSIX `os.path.join(a, b)`. */
  function Join(a: string, b: string): (r: string)
    ensures |b| > 0 && b[0] == '/' ==> r == b
    ensures (|b| == 0 || b[0] != '/') ==> |r| >= |a| + |b| && r[..|a|] == a && r[|r| - |b|..] == b
  {
    if |b| > 0 && b[0] == '/' then b
    else if a == [] || a[|a| - 1] == '/' then a + b
    else a + "/" + b
  }

  /** Whether some marker exists inside `dir`. */
  predicate HasMarker(dir: string, markers: seq<string>, pathExists: string -> bool) {
    exists k :: 0 <= k < |markers| && pathExists(Join(dir, markers[k]))
  }

  /** The directories visited from `p` upwards, ending at `dirname`'s fixed point. */
  function Ancestors(p: string): (anc: seq<string>)
    ensures |anc| >= 1 && anc[0] == p
    ensures forall k :: 0 < k < |anc| ==> anc[k] == DirName(anc[k - 1]) && anc[k] != anc[k - 1]
    ensures DirName(anc[|anc| - 1]) == anc[|anc| - 1]
    decreases |p|
  {
    var parent := DirName(p);
    if parent == p then [p] else [p] + Ancestors(parent)
  }

  /** The walk from `cur`, returning `start` when nothing matches. */
  function RootFrom(cur: string, start: string, markers: seq<string>, pathExists: string -> bool): string
    decreases |cur|
  {
    if HasMarker(cur, markers, pathExists) then cur
    else
      var parent := DirName(cur);
      if parent == cur then start else RootFrom(parent, start, markers, pathExists)
  }

  /** The defaults applied to the two optional arguments. */
  function StartOf(startPath: Option<string>, moduleDir: string): (start: string)
    ensures startPath.None? ==> start == moduleDir
    ensures startPath.Some? ==> start == startPath.value
  {
    if startPath.None? then moduleDir else startPath.value
  }

  function MarkersOf(markers: Option<seq<string>>): (ms: seq<string>)
    ensures markers.None? ==> ms == DefaultMarkers && |ms| == 7
    ensures markers.Some? ==> ms == markers.value
  {
    if markers.None? then DefaultMarkers else markers.value
  }

  /** `find_project_root(start_path, markers)`; `moduleDir` stands for
      `os.path.abspath(os.path.dirname(__file__))`, and `pathExists` for
      `os.path.exists`. */
  method FindProjectRoot(startPath: Option<string>, markers: Option<seq<string>>, moduleDir: string,
                         pathExists: string -> bool)
    returns (root: string)
    ensures root == RootFrom(StartOf(startPath, moduleDir), StartOf(startPath, moduleDir), MarkersOf(markers), pathExists)
  {
    var start := StartOf(startPath, moduleDir);
    var ms := MarkersOf(markers);
    var cur := start;
    while true
      invariant RootFrom(cur, start, ms, pathExists) == RootFrom(start, start, ms, pathExists)
      decreases |cur|
    {
      var found := AnyMarker(cur, ms, pathExists);
      if found {
        return cur;
      }
      var parent := DirName(cur);
      if parent == cur {
        return start;
      }
      cur := parent;
    }
  }

  /** The inner loop over the markers, stopping at the first that exists. */
  method AnyMarker(dir: string, markers: seq<string>, pathExists: string -> bool) returns (found: bool)
    ensures found == HasMarker(dir, markers, pathExists)
  {
    for k := 0 to |markers|
      invariant forall l :: 0 <= l < k ==> !pathExists(Join(dir, markers[l]))
    {
      if pathExists(Join(dir, markers[k])) {
        return true;
      }
    }
    return false;
  }

  /** With no marker anywhere on the way up, the result is the start. */
  lemma {:induction false} NoMarkerGivesStart(cur: string, start: string, markers: seq<string>, pathExists: string -> bool)
    requires forall k :: 0 <= k < |Ancestors(cur)| ==> !HasMarker(Ancestors(cur)[k], markers, pathExists)
    ensures RootFrom(cur, start, markers, pathExists) == start
    decreases |cur|
  {
    var anc := Ancestors(cur);
    assert anc[0] == cur;
    assert !HasMarker(anc[0], markers, pathExists);
    var parent := DirName(cur);
    if parent != cur {
      var rest := Ancestors(parent);
      assert anc == [cur] + rest;
      assert RootFrom(cur, start, markers, pathExists) == RootFrom(parent, start, markers, pathExists);
      forall j | 0 <= j < |rest|
        ensures !HasMarker(rest[j], markers, pathExists)
      {
        assert rest[j] == anc[j + 1];
      }
      NoMarkerGivesStart(parent, start, markers, pathExists);
    }
  }

  /** Entry `k` of `dirs` is the first that holds a marker. */
  predicate FirstMarkedAt(dirs: seq<string>, k: nat, markers: seq<string>, pathExists: string -> bool) {
    && k < |dirs| && HasMarker(dirs[k], markers, pathExists)
    && forall j :: 0 <= j < k ==> !HasMarker(dirs[j], markers, pathExists)
  }

  /** The first entry of `dirs` that holds a marker, or `start` when none does. */
  function FirstMarkedOr(dirs: seq<string>, start: string, markers: seq<string>, pathExists: string -> bool): string {
    if dirs == [] then start
    else if HasMarker(dirs[0], markers, pathExists) then dirs[0]
    else FirstMarkedOr(dirs[1..], start, markers, pathExists)
  }

  /** The walk returns the first directory on the way up that holds a
      marker, or the start when there is none. */
  lemma {:induction false} WalkIsFirstMarked(cur: string, start: string, markers: seq<string>, pathExists: string -> bool)
    ensures RootFrom(cur, start, markers, pathExists) == FirstMarkedOr(Ancestors(cur), start, markers, pathExists)
    decreases |cur|
  {
    var anc := Ancestors(cur);
    var parent := DirName(cur);
    if parent == cur {
      assert anc == [cur];
      assert anc[1..] == [];
    } else {
      assert anc[1..] == Ancestors(parent);
      WalkIsFirstMarked(parent, start, markers, pathExists);
    }
  }

  lemma {:induction false} FirstMarkedOrAt(dirs: seq<string>, start: string, markers: seq<string>,
                                           pathExists: string -> bool, k: nat)
    ensures FirstMarkedAt(dirs, k, markers, pathExists) ==> FirstMarkedOr(dirs, start, markers, pathExists) == dirs[k]
  {
    if FirstMarkedAt(dirs, k, markers, pathExists) && k > 0 {
      assert !HasMarker(dirs[0], markers, pathExists);
      forall j | 0 <= j < k - 1
        ensures !HasMarker(dirs[1..][j], markers, pathExists)
      {
        assert dirs[1..][j] == dirs[j + 1];
      }
      assert dirs[1..][k - 1] == dirs[k];
      FirstMarkedOrAt(dirs[1..], start, markers, pathExists, k - 1);
    }
  }

  /** The result is the first directory on the way up that holds a marker. */
  lemma NearestMarked(cur: string, start: string, markers: seq<string>, pathExists: string -> bool, k: nat)
    ensures FirstMarkedAt(Ancestors(cur), k, markers, pathExists) ==>
      RootFrom(cur, start, markers, pathExists) == Ancestors(cur)[k]
  {
    WalkIsFirstMarked(cur, start, markers, pathExists);
    FirstMarkedOrAt(Ancestors(cur), start, markers, pathExists, k);
  }

  /** The walk stops: every step up strictly shortens the path, so at most
      `|start| + 1` directories are visited. */
  lemma {:induction false} AncestorsBounded(p: string)
    ensures |Ancestors(p)| <= |p| + 1
    decreases |p|
  {
    var parent := DirName(p);
    if parent != p {
      AncestorsBounded(parent);
    }
  }
}
