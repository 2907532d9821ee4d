/** The `os.path` operations the batch loop uses to name each subtitle file,
    with the meaning POSIX `posixpath` gives them (`/` as the only
    separator): `basename`, `dirname`, `join` of two parts and `splitext`. */
module Paths {
  import opened Text

  /** `p.rfind(c)`: the last index holding `c`, or -1. */
  function LastIndex(p: string, c: char): (r: int)
    ensures -1 <= r < |p|
    ensures r >= 0 ==> p[r] == c
    ensures forall j :: r < j < |p| ==> p[j] != c
  {
    if p == [] then -1
    else if p[|p| - 1] == c then |p| - 1
    else LastIndex(p[..|p| - 1], c)
  }

  /** `os.path.basename(p)`: what follows the last `/`. */
  function Basename(p: string): (r: string)
    ensures '/' !in r
    ensures EndsWith(p, r)
    ensures |r| < |p| ==> p[|p| - |r| - 1] == '/'
  {
    var r := p[LastIndex(p, '/') + 1..];
    assert forall j :: 0 <= j < |r| ==> r[j] == p[LastIndex(p, '/') + 1 + j];
    r
  }

  predicate AllSlashes(s: string) {
    forall i :: 0 <= i < |s| ==> s[i] == '/'
  }

  /** `s.rstrip('/')` */
  function StripTrailingSlashes(s: string): (r: string)
    ensures |r| <= |s| && r == s[..|r|]
    ensures r == [] || r[|r| - 1] != '/'
  {
    if s != [] && s[|s| - 1] == '/' then StripTrailingSlashes(s[..|s| - 1]) else s
  }

  /** Only slashes are removed. */
  lemma {:induction false} StripTrailingSlashesDropsSlashes(s: string)
    ensures AllSlashes(s[|StripTrailingSlashes(s)|..])
  {
    if s != [] && s[|s| - 1] == '/' {
      var init := s[..|s| - 1];
      StripTrailingSlashesDropsSlashes(init);
      var n := |StripTrailingSlashes(s)|;
      assert forall j :: n <= j < |s| - 1 ==> s[j] == init[j];
      assert forall j :: 0 <= j < |s| - n ==> s[n..][j] == s[n + j];
    }
  }

  /** One trailing slash after a name is the only one removed. */
  lemma StripOneSlash(x: string)
    requires x != [] && x[|x| - 1] != '/'
    ensures StripTrailingSlashes(x + "/") == x
  {
    assert (x + "/")[..|x|] == x;
  }

  /** `os.path.dirname(p)`: everything up to the last `/`, without trailing
      slashes unless it is made of slashes only (the root). */
  function Dirname(p: string): string
  {
    var head := p[..LastIndex(p, '/') + 1];
    if head != [] && !AllSlashes(head) then StripTrailingSlashes(head) else head
  }

  /** Joining a path's folder and its basename gives the path back when the
      last separator is not doubled: a bare name (folder ""), a name in the
      root (folder "/"), or a name after a single `/`. */
  lemma JoinDirnameBasename(p: string)
    requires var l := LastIndex(p, '/'); l <= 0 || p[l - 1] != '/'
    ensures Join(Dirname(p), Basename(p)) == p
  {
    var l := LastIndex(p, '/');
    var name := Basename(p);
    HeadTail(p);
    JoinPlainName(Dirname(p), name);
    if l == -1 {
      assert Dirname(p) == [];
      assert p == name;
    } else if l == 0 {
      assert Dirname(p) == "/" by {
        assert AllSlashes(p[..1]);
      }
      assert p == "/" + name;
    } else {
      DirnameAfterSingleSlash(p);
      SplitAtLastSlash(p);
    }
  }

  /** A path with a separator is what precedes its last `/`, the `/`, and
      the basename. */
  lemma SplitAtLastSlash(p: string)
    requires LastIndex(p, '/') >= 0
    ensures p == p[..LastIndex(p, '/')] + "/" + Basename(p)
  {
    var l := LastIndex(p, '/');
    HeadTail(p);
    assert p[..l + 1] == p[..l] + "/";
  }

  /** Joining a name without separators adds a `/` unless the folder is
      empty or already ends in one. */
  lemma JoinPlainName(a: string, name: string)
    requires '/' !in name
    ensures Join(a, name) == if a == [] || a[|a| - 1] == '/' then a + name else a + "/" + name
  {
    if name != [] {
      assert name[0] in name;
    }
  }

  /** After a single `/`, the folder is everything before it. */
  lemma DirnameAfterSingleSlash(p: string)
    requires LastIndex(p, '/') >= 1 && p[LastIndex(p, '/') - 1] != '/'
    ensures Dirname(p) == p[..LastIndex(p, '/')]
  {
    var l := LastIndex(p, '/');
    var head := p[..l + 1];
    assert head == p[..l] + "/";
    assert !AllSlashes(head) by {
      assert head[l - 1] != '/';
    }
    StripOneSlash(p[..l]);
  }

  /** The head and the tail of a path put back together give the path. */
  lemma HeadTail(p: string)
    ensures p == p[..LastIndex(p, '/') + 1] + Basename(p)
  {
  }

  /** `os.path.join(a, b)` */
  function Join(a: string, b: string): (r: string)
    ensures EndsWith(r, b)
  {
    if b != [] && b[0] == '/' then b
    else if a == [] || a[|a| - 1] == '/' then a + b
    else a + "/" + b
  }

  /** `os.path.splitext(p)`: the extension is the text from the last dot of
      the last component, unless everything before that dot in the
      component is dots (a leading-dot name such as `.mp4` has none). */
  function SplitExt(p: string): (r: (string, string))
    ensures r.0 + r.1 == p && r.0 == p[..|r.0|]
  {
    var sep := LastIndex(p, '/');
    var dot := LastIndex(p, '.');
    if dot > sep && HasNonDot(p, sep + 1, dot)
    then (p[..dot], p[dot..])
    else (p, [])
  }

  /** The leading-dot loop of `genericpath._splitext`: some character of
      `p[from..to]` is not a dot. */
  predicate HasNonDot(p: string, from: int, to: int)
    requires 0 <= from && to <= |p|
  {
    exists j :: from <= j < to && p[j] != '.'
  }

  /** An extension begins at a dot, holds no other dot and no separator,
      and leaves a component that is not only dots. */
  lemma SplitExtShape(p: string)
    ensures var (root, ext) := SplitExt(p);
            ext == [] || (ext[0] == '.' && '.' !in ext[1..] && '/' !in ext)
  {
    var (root, ext) := SplitExt(p);
    if ext != [] {
      var dot := LastIndex(p, '.');
      assert ext == p[dot..];
      assert forall j :: 0 <= j < |ext| ==> ext[j] == p[dot + j];
      assert forall j :: 0 <= j < |ext| - 1 ==> ext[1..][j] == p[dot + 1 + j];
    }
  }

  /** For a file name whose extension `e` is a dot followed by no other dot,
      the stem is the name without `e` exactly when something other than
      dots precedes it; otherwise the whole name is the stem. */
  lemma StemOfExtension(name: string, e: string)
    requires '/' !in name
    requires EndsWith(name, e) && |e| >= 1 && e[0] == '.' && '.' !in e[1..]
    ensures var base := name[..|name| - |e|];
            SplitExt(name).0 == if HasNonDot(base, 0, |base|) then base else name
  {
    var base := name[..|name| - |e|];
    var dot := |name| - |e|;
    assert forall j :: dot < j < |name| ==> name[j] == e[1..][j - dot - 1];
    assert LastIndex(name, '.') == dot;
    assert LastIndex(name, '/') == -1;
    assert forall j :: 0 <= j < |base| ==> base[j] == name[j];
    assert HasNonDot(base, 0, |base|) <==> HasNonDot(name, 0, dot);
  }

  // ---------------------------------------------------------------------
  // Where a subtitle file goes
  // ---------------------------------------------------------------------

  /** Lines 317-320: the fixed destination folder when one was given and is
      a directory, otherwise the video's own folder. */
  function OutputFolder(video: string, dest: string, isDir: string -> bool): (folder: string)
    ensures dest != [] && isDir(dest) ==> folder == dest
    ensures !(dest != [] && isDir(dest)) ==> folder == Dirname(video)
  {
    if dest != [] && isDir(dest) then dest else Dirname(video)
  }

  /** What the subtitle file of a video is called: its stem plus `.srt`. */
  function SubtitleName(video: string): string {
    SplitExt(Basename(video)).0 + ".srt"
  }

  /** Lines 322-323: `os.path.join(pasta_final, f"{nome_sem_ext}.srt")`. */
  function SubtitlePath(video: string, dest: string, isDir: string -> bool): string {
    Join(OutputFolder(video, dest, isDir), SubtitleName(video))
  }

  /** The subtitle file name is one path component ending in `.srt`. */
  lemma SubtitleNameShape(video: string)
    ensures '/' !in SubtitleName(video)
    ensures EndsWith(SubtitleName(video), ".srt")
  {
    StemHasNoSlash(video);
    SrtSuffix(SplitExt(Basename(video)).0);
  }

  lemma StemHasNoSlash(video: string)
    ensures '/' !in SplitExt(Basename(video)).0
  {
    var b := Basename(video);
    var stem := SplitExt(b).0;
    assert forall j :: 0 <= j < |stem| ==> stem[j] == b[j];
  }

  lemma SrtSuffix(stem: string)
    ensures EndsWith(stem + ".srt", ".srt")
    ensures '/' !in stem ==> '/' !in stem + ".srt"
  {
    var name := stem + ".srt";
    assert name[|stem|..] == ".srt";
  }

  /** The subtitle path is the chosen folder, a separator when the folder
      does not already end in one, and the video's stem with `.srt`; its
      own basename is that name, so the file lands directly in the folder. */
  lemma SubtitlePathShape(video: string, dest: string, isDir: string -> bool)
    ensures var folder := OutputFolder(video, dest, isDir);
            var pre := if folder == [] || folder[|folder| - 1] == '/' then folder else folder + "/";
            && SubtitlePath(video, dest, isDir) == pre + SubtitleName(video)
            && Basename(SubtitlePath(video, dest, isDir)) == SubtitleName(video)
  {
    var folder := OutputFolder(video, dest, isDir);
    var name := SubtitleName(video);
    SubtitleNameShape(video);
    assert name[0] != '/';
    var pre := if folder == [] || folder[|folder| - 1] == '/' then folder else folder + "/";
    assert SubtitlePath(video, dest, isDir) == pre + name;
    BasenameAfterSlash(pre, name);
  }

  /** The basename of `pre + name` is `name` when `pre` is empty or ends in
      a separator and `name` has none. */
  lemma BasenameAfterSlash(pre: string, name: string)
    requires pre == [] || pre[|pre| - 1] == '/'
    requires '/' !in name
    ensures Basename(pre + name) == name
  {
    var p := pre + name;
    assert forall j :: |pre| <= j < |p| ==> p[j] == name[j - |pre|];
    if pre != [] {
      assert p[|pre| - 1] == '/';
    }
    assert LastIndex(p, '/') == |pre| - 1;
  }

  /** Joining a plain file name to a folder keeps the name as the
      basename. */
  lemma BasenameOfJoin(root: string, name: string)
    requires name != [] && '/' !in name
    ensures Basename(Join(root, name)) == name
  {
    assert name[0] != '/';
    var pre := if root == [] || root[|root| - 1] == '/' then root else root + "/";
    assert Join(root, name) == pre + name;
    BasenameAfterSlash(pre, name);
  }
}
