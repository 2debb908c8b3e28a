/** `load_image` of custom_libs/ImageComparision.py: resolving an image path
    against an ordered list of candidate locations. The file system and the
    decoder are parameters; path arithmetic (`Path(p)`, `root / p`) is too. */
module ImageLoading {
  import opened Wrappers
  import opened Raster

  /** What `load_image` sees of the process and of the file system. */
  datatype LoadEnv = LoadEnv(
    repoRoot: string,                   // Path(__file__).resolve().parents[1]
    cwd: string,                        // os.getcwd()
    sysPath: seq<string>,               // sys.path, in order
    asPath: string -> string,           // str(Path(p))
    join: (string, string) -> string,   // str(Path(root) / p)
    pathExists: string -> bool,         // Path(p).exists(), true for directories too
    imread: string -> Option<Decoded>)  // cv2.imread(p, cv2.IMREAD_COLOR); None when it fails

  /** The `FileNotFoundError` raised when every location failed. */
  datatype LoadError = NotFound(path: string, tried: seq<string>, cwd: string) {
    /** The exception's text: one " - " line per distinct location tried. */
    function Message(): (m: string)
      ensures |Header(path)| <= |m| && m[..|Header(path)|] == Header(path)
      ensures |Footer(cwd)| <= |m| && m[|m| - |Footer(cwd)|..] == Footer(cwd)
    {
      var m := Header(path) + JoinLines(Bullets(tried)) + Footer(cwd);
      assert m[..|Header(path)|] == Header(path);
      assert m[|m| - |Footer(cwd)|..] == Footer(cwd);
      m
    }
  }

  /** The text before the list of locations. */
  function Header(path: string): string {
    "Image not found or could not be opened: " + path + "\nTried the following locations:\n"
  }

  /** The text after the list of locations. */
  function Footer(cwd: string): string {
    "\nCurrent working dir: " + cwd
  }

  /** `piece` is a line of `text` starting at `p`: it follows a "\n" there. */
  predicate LineOf(text: string, p: nat, piece: string) {
    0 < p && p + |piece| <= |text| && text[p..p + |piece|] == piece && text[p - 1] == '\n'
  }

  /** Between its header and its footer, the message is the bullet lines
      joined by "\n". */
  lemma MessageMiddle(e: LoadError)
    ensures |Header(e.path)| + |Footer(e.cwd)| <= |e.Message()|
    ensures e.Message()[|Header(e.path)|..|e.Message()| - |Footer(e.cwd)|] == JoinLines(Bullets(e.tried))
  {
    var m := e.Message();
    assert m == Header(e.path) + JoinLines(Bullets(e.tried)) + Footer(e.cwd);
  }

  /** The message lists every tried location on a line of its own, in the
      order of `tried`: entry `k` sits at its line of the joined list. */
  lemma MessageListsTried(e: LoadError, k: nat)
    requires k < |e.tried|
    ensures LineOf(e.Message(), |Header(e.path)| + LineStart(Bullets(e.tried), k), " - " + e.tried[k])
  {
    HeaderEndsLine(e.path);
    JoinedLineInText(e.Message(), Header(e.path), Bullets(e.tried), Footer(e.cwd), k,
      |Header(e.path)| + LineStart(Bullets(e.tried), k), " - " + e.tried[k]);
  }

  /** Line `k` of joined `lines`, placed after `head` that ends a line, is a
      line of the whole text. */
  lemma JoinedLineInText(m: string, head: string, lines: seq<string>, foot: string, k: nat,
                         p: nat, line: string)
    requires m == head + JoinLines(lines) + foot
    requires head != [] && head[|head| - 1] == '\n'
    requires k < |lines| && line == lines[k]
    requires p == |head| + LineStart(lines, k)
    ensures LineOf(m, p, line)
  {
    JoinLinesAt(lines, k);
    if k > 0 {
      JoinLinesBreakBefore(lines, k);
    } else {
      assert LineStart(lines, k) == 0 by { assert lines[..0] == []; }
    }
    EmbeddedLine(m, head, JoinLines(lines), foot, LineStart(lines, k), line, p, line);
  }

  /** A line of `text`, placed after `head` that ends a line, is a line of
      the whole. */
  lemma EmbeddedLine(m: string, head: string, text: string, foot: string, q: nat, piece: string,
                      p: nat, line: string)
    requires m == head + text + foot
    requires head != [] && head[|head| - 1] == '\n'
    requires q + |piece| <= |text| && text[q..q + |piece|] == piece
    requires q == 0 || text[q - 1] == '\n'
    requires p == |head| + q && line == piece
    ensures LineOf(m, p, line)
  {
    assert forall i :: 0 <= i < |text| ==> m[|head| + i] == text[i];
    assert m[|head| - 1] == head[|head| - 1];
    assert m[|head| + q..|head| + q + |piece|] == text[q..q + |piece|];
  }

  /** The header ends with the line break before the first location. */
  lemma HeaderEndsLine(path: string)
    ensures |Header(path)| > 0 && Header(path)[|Header(path)| - 1] == '\n'
  {
    var tail := "\nTried the following locations:\n";
    assert Header(path) == ("Image not found or could not be opened: " + path) + tail;
  }


  function Bullets(items: seq<string>): (r: seq<string>)
    ensures |r| == |items|
    ensures forall k :: 0 <= k < |items| ==> r[k] == " - " + items[k]
  {
    if items == [] then [] else [" - " + items[0]] + Bullets(items[1..])
  }

  /** `"\n".join(lines)`: every line, in order, with one "\n" between
      neighbours, so its length is the lines' total plus one per gap. */
  function JoinLines(lines: seq<string>): (r: string)
    ensures lines == [] ==> r == ""
    ensures lines != [] ==> |lines[0]| <= |r| && r[..|lines[0]|] == lines[0]
    ensures |r| == TotalLength(lines) + (if lines == [] then 0 else |lines| - 1)
  {
    if lines == [] then ""
    else if |lines| == 1 then lines[0]
    else lines[0] + "\n" + JoinLines(lines[1..])
  }

  function TotalLength(lines: seq<string>): nat {
    if lines == [] then 0 else |lines[0]| + TotalLength(lines[1..])
  }

  /** Where line `k` starts in the joined text: after the earlier lines and
      one "\n" for each of them. */
  function LineStart(lines: seq<string>, k: nat): nat
    requires k <= |lines|
  {
    TotalLength(lines[..k]) + k
  }

  /** Line `k` of the joined text is `lines[k]`, at its `LineStart`. */
  lemma {:induction false} JoinLinesAt(lines: seq<string>, k: nat)
    requires k < |lines|
    ensures LineStart(lines, k) + |lines[k]| <= |JoinLines(lines)|
    ensures JoinLines(lines)[LineStart(lines, k)..LineStart(lines, k) + |lines[k]|] == lines[k]
    decreases k
  {
    if k == 0 {
      assert lines[..0] == [];
    } else {
      var tail := lines[1..];
      JoinLinesAt(tail, k - 1);
      assert tail[k - 1] == lines[k];
      LineStartCons(lines, k);
      ShiftedSlice(JoinLines(lines), lines[0] + "\n", JoinLines(tail), LineStart(tail, k - 1), lines[k]);
    }
  }

  /** A "\n" comes just before every line but the first. */
  lemma {:induction false} JoinLinesBreakBefore(lines: seq<string>, k: nat)
    requires 0 < k < |lines|
    ensures LineStart(lines, k) <= |JoinLines(lines)|
    ensures JoinLines(lines)[LineStart(lines, k) - 1] == '\n'
    decreases k
  {
    var tail := lines[1..];
    var head := lines[0] + "\n";
    assert JoinLines(lines) == head + JoinLines(tail);
    LineStartCons(lines, k);
    if k > 1 {
      JoinLinesBreakBefore(tail, k - 1);
    } else {
      assert LineStart(tail, 0) == 0 by { assert tail[..0] == []; }
    }
    JoinLinesAt(tail, k - 1);
    CharBefore(head, JoinLines(tail), LineStart(tail, k - 1));
  }

  /** A piece found at `q` in the second part of `r` is found at `|head| + q` in `r`. */
  lemma ShiftedSlice(r: string, head: string, rt: string, q: nat, piece: string)
    requires r == head + rt && q + |piece| <= |rt| && rt[q..q + |piece|] == piece
    ensures |head| + q + |piece| <= |r| && r[|head| + q..|head| + q + |piece|] == piece
  {
    assert r[|head| + q..|head| + q + |piece|] == rt[q..q + |piece|];
  }

  /** The character just before position `|a| + q` of `a + b`. */
  lemma CharBefore(a: string, b: string, q: nat)
    requires a != [] && q <= |b|
    ensures (a + b)[|a| + q - 1] == (if q == 0 then a[|a| - 1] else b[q - 1])
  {
  }

  /** Line `k` starts one line and one "\n" later than line `k - 1` of the tail. */
  lemma LineStartCons(lines: seq<string>, k: nat)
    requires 0 < k < |lines|
    ensures LineStart(lines, k) == |lines[0]| + 1 + LineStart(lines[1..], k - 1)
  {
    assert lines[..k][0] == lines[0];
    assert lines[..k][1..] == lines[1..][..k - 1];
  }


  /** Joining one more line adds a "\n" and that line at the end. */
  lemma {:induction false} JoinLinesSnoc(lines: seq<string>, x: string)
    requires lines != []
    ensures JoinLines(lines + [x]) == JoinLines(lines) + "\n" + x
    decreases |lines|
  {
    var ext := lines + [x];
    assert ext[0] == lines[0];
    assert ext[1..] == lines[1..] + [x];
    if |lines| == 1 {
      assert ext[1..] == [x];
    } else {
      JoinLinesSnoc(lines[1..], x);
    }
  }

  /** The file locations tried, in order: the path as given, under the
      repository root, under the working directory, under each sys.path entry. */
  function Candidates(env: LoadEnv, path: string): (cs: seq<string>)
    ensures |cs| == 3 + |env.sysPath|
    ensures cs[0] == env.asPath(path) && cs[1] == env.join(env.repoRoot, path) && cs[2] == env.join(env.cwd, path)
    ensures forall k :: 0 <= k < |env.sysPath| ==> cs[3 + k] == env.join(env.sysPath[k], path)
  {
    [env.asPath(path), env.join(env.repoRoot, path), env.join(env.cwd, path)]
      + seq(|env.sysPath|, k requires 0 <= k < |env.sysPath| => env.join(env.sysPath[k], path))
  }

  /** The entry recorded for the last attempt, `cv2.imread` on the raw string. */
  function RawAttempt(path: string): string {
    "cv2.imread('" + path + "')"
  }

  /** Every location recorded in `tried`, duplicates included. */
  function Tried(env: LoadEnv, path: string): seq<string> {
    Candidates(env, path) + [RawAttempt(path)]
  }

  /** A candidate location succeeds when it exists and decodes. */
  predicate Loads(env: LoadEnv, location: string) {
    env.pathExists(location) && env.imread(location).Some?
  }

  /** The image of the first candidate that succeeds. */
  function FirstLoad(env: LoadEnv, cs: seq<string>): Option<Decoded> {
    if cs == [] then None
    else if Loads(env, cs[0]) then Some(env.imread(cs[0]).value)
    else FirstLoad(env, cs[1..])
  }

  /** `xs` with later repeats removed, each element kept at its first occurrence. */
  function Dedup(xs: seq<string>): (d: seq<string>)
    ensures forall x :: x in d <==> x in xs
    ensures forall i, j :: 0 <= i < j < |d| ==> d[i] != d[j]
  {
    assert xs != [] ==> xs == xs[..|xs| - 1] + [xs[|xs| - 1]];
    if xs == [] then []
    else
      var d := Dedup(xs[..|xs| - 1]);
      if xs[|xs| - 1] in d then d else d + [xs[|xs| - 1]]
  }

  /** The outcome `load_image` computes. */
  function LoadSpec(env: LoadEnv, path: string): Result<Decoded, LoadError> {
    match FirstLoad(env, Candidates(env, path))
    case Some(img) => Success(img)
    case None =>
      if env.imread(path).Some? then Success(env.imread(path).value)
      else Failure(NotFound(path, Dedup(Tried(env, path)), env.cwd))
  }

  /** Trying candidate `i`: it gives its image when it loads, and otherwise
      the search goes on with the candidates after it. */
  lemma FirstLoadStep(env: LoadEnv, cs: seq<string>, i: nat)
    requires i < |cs|
    ensures Loads(env, cs[i]) ==> FirstLoad(env, cs[i..]) == Some(env.imread(cs[i]).value)
    ensures !Loads(env, cs[i]) ==> FirstLoad(env, cs[i..]) == FirstLoad(env, cs[i + 1..])
  {
    assert cs[i..][0] == cs[i] && cs[i..][1..] == cs[i + 1..];
  }

  /** Trying candidate `i` when the earlier ones failed: `load_image`
      returns its image when it loads, and otherwise the search goes on. */
  lemma TryCandidate(env: LoadEnv, path: string, i: nat)
    requires i < |Candidates(env, path)|
    requires FirstLoad(env, Candidates(env, path)) == FirstLoad(env, Candidates(env, path)[i..])
    ensures var cs := Candidates(env, path);
      && (Loads(env, cs[i]) ==> LoadSpec(env, path) == Success(env.imread(cs[i]).value))
      && (!Loads(env, cs[i]) ==> FirstLoad(env, cs) == FirstLoad(env, cs[i + 1..]))
  {
    FirstLoadStep(env, Candidates(env, path), i);
  }

  /** When no candidate loads, only the raw `imread` is left. */
  lemma NoCandidateLoads(env: LoadEnv, path: string)
    requires FirstLoad(env, Candidates(env, path)) == None
    ensures LoadSpec(env, path) ==
      if env.imread(path).Some? then Success(env.imread(path).value)
      else Failure(NotFound(path, Dedup(Tried(env, path)), env.cwd))
  {
  }

  /** `load_image(path)`: tries the candidates in order, returning the first
      image that decodes, else the raw `imread`, else raises with the
      de-duplicated list of locations. */
  method LoadImage(env: LoadEnv, path: string) returns (r: Result<Decoded, LoadError>)
    ensures r == LoadSpec(env, path)
  {
    ghost var cands := Candidates(env, path);
    var tried: seq<string> := [];

    var candidate := env.asPath(path);
    assert cands[0..] == cands;
    TryCandidate(env, path, 0);
    tried := tried + [candidate];
    var img := TryLoad(env, candidate);
    if img.Some? {
      return Success(img.value);
    }

    candidate := env.join(env.repoRoot, path);
    TryCandidate(env, path, 1);
    tried := tried + [candidate];
    img := TryLoad(env, candidate);
    if img.Some? {
      return Success(img.value);
    }

    candidate := env.join(env.cwd, path);
    TryCandidate(env, path, 2);
    tried := tried + [candidate];
    img := TryLoad(env, candidate);
    if img.Some? {
      return Success(img.value);
    }
    assert tried == cands[..3];

    var found;
    found, tried := SearchSysPath(env, path, tried);
    if found.Some? {
      return Success(found.value);
    }
    NoCandidateLoads(env, path);

    tried := tried + [RawAttempt(path)];
    assert tried == Tried(env, path);
    var raw := env.imread(path);
    if raw.Some? {
      return Success(raw.value);
    }

    var unique := DedupInOrder(tried);
    return Failure(NotFound(path, unique, env.cwd));
  }

  /** The `sys.path` loop of `load_image`, after the three fixed locations
      failed: the image of the first entry that loads, and every location
      tried so far. */
  method SearchSysPath(env: LoadEnv, path: string, tried0: seq<string>)
      returns (found: Option<Decoded>, tried: seq<string>)
    requires tried0 == Candidates(env, path)[..3]
    requires FirstLoad(env, Candidates(env, path)) == FirstLoad(env, Candidates(env, path)[3..])
    ensures found == FirstLoad(env, Candidates(env, path))
    ensures found.None? ==> tried == Candidates(env, path)
  {
    ghost var cands := Candidates(env, path);
    tried := tried0;
    for k := 0 to |env.sysPath|
      invariant tried == cands[..3 + k]
      invariant FirstLoad(env, cands) == FirstLoad(env, cands[3 + k..])
    {
      var candidate := env.join(env.sysPath[k], path);
      TryCandidate(env, path, 3 + k);
      tried := tried + [candidate];
      assert tried == cands[..3 + k + 1];
      var img := TryLoad(env, candidate);
      if img.Some? {
        return img, tried;
      }
    }
    assert cands[..3 + |env.sysPath|] == cands;
    assert cands[|cands|..] == [];
    return None, tried;
  }

  /** One attempt of `load_image`: `cv2.imread` only when the location
      exists, and its image only when it decoded. */
  method TryLoad(env: LoadEnv, candidate: string) returns (img: Option<Decoded>)
    ensures img.Some? <==> Loads(env, candidate)
    ensures img.Some? ==> img == env.imread(candidate)
  {
    img := None;
    if env.pathExists(candidate) {
      img := env.imread(candidate);
    }
  }

  /** The `tried_unique` loop of `load_image`. */
  method DedupInOrder(items: seq<string>) returns (unique: seq<string>)
    ensures unique == Dedup(items)
  {
    unique := [];
    for k := 0 to |items|
      invariant unique == Dedup(items[..k])
    {
      assert items[..k + 1][..k] == items[..k];
      if items[k] !in unique {
        unique := unique + [items[k]];
      }
    }
    assert items[..|items|] == items;
  }

  // ---------------------------------------------------------------------------
  // Properties of the candidate order

  lemma {:induction false} FirstLoadAt(env: LoadEnv, cs: seq<string>, k: nat)
    requires k < |cs| && Loads(env, cs[k])
    requires forall j :: 0 <= j < k ==> !Loads(env, cs[j])
    ensures FirstLoad(env, cs) == Some(env.imread(cs[k]).value)
  {
    if k > 0 {
      FirstLoadAt(env, cs[1..], k - 1);
    }
  }

  lemma {:induction false} FirstLoadNone(env: LoadEnv, cs: seq<string>)
    ensures FirstLoad(env, cs).None? <==> forall k :: 0 <= k < |cs| ==> !Loads(env, cs[k])
  {
    if cs != [] {
      FirstLoadNone(env, cs[1..]);
      assert forall k :: 1 <= k < |cs| ==> cs[k] == cs[1..][k - 1];
    }
  }

  /** The first candidate that exists and decodes is the one returned. */
  lemma LoadImageFirstSuccess(env: LoadEnv, path: string, k: nat)
    requires k < |Candidates(env, path)|
    requires Loads(env, Candidates(env, path)[k])
    requires forall j :: 0 <= j < k ==> !Loads(env, Candidates(env, path)[j])
    ensures LoadSpec(env, path) == Success(env.imread(Candidates(env, path)[k]).value)
  {
    FirstLoadAt(env, Candidates(env, path), k);
  }

  /** `load_image` fails exactly when no candidate and no raw `imread`
      succeeds; the error then lists every location tried, each exactly
      once, in the order of first attempt. */
  lemma LoadImageFailure(env: LoadEnv, path: string)
    ensures LoadSpec(env, path).Failure? <==>
      (forall k :: 0 <= k < |Candidates(env, path)| ==> !Loads(env, Candidates(env, path)[k]))
      && env.imread(path).None?
    ensures LoadSpec(env, path).Failure? ==>
      var t := LoadSpec(env, path).error.tried;
      && (forall x :: x in t <==> x in Tried(env, path))
      && (forall i, j :: 0 <= i < j < |t| ==> t[i] != t[j])
      && (forall i, j :: 0 <= i < j < |t| ==>
            FirstIndex(Tried(env, path), t[i]) < FirstIndex(Tried(env, path), t[j]))
  {
    FirstLoadNone(env, Candidates(env, path));
    DedupFirstOccurrence(Tried(env, path));
  }

  // ---------------------------------------------------------------------------
  // Properties of the de-duplication

  /** The position of the first occurrence of `x` in `xs`. */
  function FirstIndex(xs: seq<string>, x: string): (i: nat)
    requires x in xs
    ensures i < |xs| && xs[i] == x && x !in xs[..i]
  {
    if xs[0] == x then 0 else 1 + FirstIndex(xs[1..], x)
  }

  lemma {:induction false} FirstIndexExtend(xs: seq<string>, y: string, x: string)
    requires x in xs
    ensures FirstIndex(xs + [y], x) == FirstIndex(xs, x)
  {
    if xs[0] != x {
      assert (xs + [y])[1..] == xs[1..] + [y];
      FirstIndexExtend(xs[1..], y, x);
    }
  }

  lemma {:induction false} DedupFirstOccurrence(xs: seq<string>)
    ensures forall i, j :: 0 <= i < j < |Dedup(xs)| ==>
      FirstIndex(xs, Dedup(xs)[i]) < FirstIndex(xs, Dedup(xs)[j])
  {
    if xs != [] {
      var init, last := xs[..|xs| - 1], xs[|xs| - 1];
      var d := Dedup(init);
      assert xs == init + [last];
      DedupFirstOccurrence(init);
      forall x | x in init ensures FirstIndex(xs, x) == FirstIndex(init, x) {
        FirstIndexExtend(init, last, x);
      }
      if last !in d {
        assert last !in init;
        assert FirstIndex(xs, last) == |init|;
      }
    }
  }
}
