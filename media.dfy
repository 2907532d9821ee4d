/** Building the list of files to process (`iniciar_thread`): one chosen
    file, or every media file met while walking a chosen folder. */
module Media {
  import opened Text
  import opened Paths

  /** `EXTENSOES_VIDEO`. */
  const VideoExtensions: seq<string> := [".mp4", ".mkv", ".avi", ".mov", ".webm", ".flv", ".mpeg", ".mp3", ".wav"]

  /** `file.lower().endswith(EXTENSOES_VIDEO)` */
  predicate IsMediaName(name: string) {
    EndsWithAny(Lower(name), VideoExtensions)
  }

  /** One `(root, dirs, files)` triple of `os.walk`; the walk is the list of
      these in the order `os.walk` yields them. */
  datatype WalkStep = WalkStep(root: string, files: seq<string>)

  /** The radio button: "arquivo" is one file, anything else a folder. */
  datatype Mode = OneFile | WholeFolder

  /** The outputs of `f` for the elements of `xs`, one after the other. */
  function Flatten<T>(xs: seq<T>, f: T -> seq<string>): seq<string> {
    if xs == [] then [] else Flatten(xs[..|xs| - 1], f) + f(xs[|xs| - 1])
  }

  /** What one file name of directory `root` contributes. */
  function Kept(root: string): string -> seq<string> {
    name => if IsMediaName(name) then [Join(root, name)] else []
  }

  /** The media paths of one directory listing, in listing order. */
  function MediaInListing(root: string, files: seq<string>): seq<string> {
    Flatten(files, Kept(root))
  }

  /** What one directory of the walk contributes. */
  function StepMedia(step: WalkStep): seq<string> {
    MediaInListing(step.root, step.files)
  }

  /** The media paths of a whole walk, directory by directory. */
  function MediaInWalk(walk: seq<WalkStep>): seq<string> {
    Flatten(walk, StepMedia)
  }

  /** The list `iniciar_thread` builds. */
  function Candidates(mode: Mode, origin: string, isFile: string -> bool, isDir: string -> bool,
                      walk: seq<WalkStep>): seq<string> {
    match mode
    case OneFile => if isFile(origin) then [origin] else []
    case WholeFolder => if isDir(origin) then MediaInWalk(walk) else []
  }

  /** The nested loops of `iniciar_thread`; `walk` is what `os.walk(origem)`
      yields. */
  method CollectMedia(mode: Mode, origin: string, isFile: string -> bool, isDir: string -> bool,
                      walk: seq<WalkStep>)
    returns (list: seq<string>)
    ensures list == Candidates(mode, origin, isFile, isDir, walk)
  {
    list := [];
    if mode == OneFile {
      if isFile(origin) {
        list := list + [origin];
      }
    } else if isDir(origin) {
      var k := 0;
      while k < |walk|
        invariant 0 <= k <= |walk|
        invariant list == MediaInWalk(walk[..k])
      {
        var found := CollectListing(walk[k].root, walk[k].files);
        list := list + found;
        FlattenSnoc(walk, k, StepMedia);
        k := k + 1;
      }
      assert walk[..|walk|] == walk;
    }
  }

  /** The inner loop: the media files of one directory listing. */
  method CollectListing(root: string, files: seq<string>) returns (found: seq<string>)
    ensures found == MediaInListing(root, files)
  {
    found := [];
    var j := 0;
    while j < |files|
      invariant 0 <= j <= |files|
      invariant found == Flatten(files[..j], Kept(root))
    {
      var file := files[j];
      FlattenSnoc(files, j, Kept(root));
      if IsMediaName(file) {
        found := found + [Join(root, file)];
      }
      j := j + 1;
    }
    assert files[..|files|] == files;
  }

  // ---------------------------------------------------------------------
  // Properties
  // ---------------------------------------------------------------------

  lemma FlattenSnoc<T>(xs: seq<T>, j: nat, f: T -> seq<string>)
    requires j < |xs|
    ensures Flatten(xs[..j + 1], f) == Flatten(xs[..j], f) + f(xs[j])
  {
    assert xs[..j + 1][..j] == xs[..j];
  }

  /** Order is kept: the outputs for an earlier part come first. */
  lemma {:induction false} FlattenAppend<T>(a: seq<T>, b: seq<T>, f: T -> seq<string>)
    ensures Flatten(a + b, f) == Flatten(a, f) + Flatten(b, f)
    decreases |b|
  {
    if b == [] {
      assert a + b == a;
    } else {
      var k := |b| - 1;
      assert (a + b)[..|a| + k] == a + b[..k];
      FlattenAppend(a, b[..k], f);
    }
  }

  lemma {:induction false} InFlattenIff<T>(xs: seq<T>, f: T -> seq<string>, p: string)
    ensures p in Flatten(xs, f) <==> exists i :: 0 <= i < |xs| && p in f(xs[i])
    decreases |xs|
  {
    if xs != [] {
      var k := |xs| - 1;
      InFlattenIff(xs[..k], f, p);
      assert forall i :: 0 <= i < k ==> xs[..k][i] == xs[i];
    }
  }

  /** A path is listed for a directory exactly when it is the join of the
      root with one of its media names. */
  lemma InListingIff(root: string, files: seq<string>, p: string)
    ensures p in MediaInListing(root, files)
        <==> exists j :: 0 <= j < |files| && IsMediaName(files[j]) && p == Join(root, files[j])
  {
    InFlattenIff(files, Kept(root), p);
  }

  /** A path is collected exactly when some directory of the walk holds a
      media name that joins to it. */
  lemma InWalkIff(walk: seq<WalkStep>, p: string)
    ensures p in MediaInWalk(walk)
        <==> exists i, j :: 0 <= i < |walk| && 0 <= j < |walk[i].files|
                         && IsMediaName(walk[i].files[j]) && p == Join(walk[i].root, walk[i].files[j])
  {
    InFlattenIff(walk, StepMedia, p);
    forall i | 0 <= i < |walk| {
      InListingIff(walk[i].root, walk[i].files, p);
    }
  }

  /** Walk order is kept: the paths of an earlier part of the walk come
      before those of a later part, and within a directory listing order is
      kept. */
  lemma WalkOrder(a: seq<WalkStep>, b: seq<WalkStep>)
    ensures MediaInWalk(a + b) == MediaInWalk(a) + MediaInWalk(b)
  {
    FlattenAppend(a, b, StepMedia);
  }

  lemma ListingOrder(root: string, a: seq<string>, b: seq<string>)
    ensures MediaInListing(root, a + b) == MediaInListing(root, a) + MediaInListing(root, b)
  {
    FlattenAppend(a, b, Kept(root));
  }

  /** A walk whose file names are plain names (non-empty, no separator),
      as `os.walk` gives them. */
  predicate PlainNames(walk: seq<WalkStep>) {
    forall i, j :: 0 <= i < |walk| && 0 <= j < |walk[i].files| ==>
      walk[i].files[j] != [] && '/' !in walk[i].files[j]
  }

  /** Every collected path names a media file: its basename passes the
      extension test. */
  lemma CollectedAreMedia(walk: seq<WalkStep>, p: string)
    requires PlainNames(walk)
    requires p in MediaInWalk(walk)
    ensures IsMediaName(Basename(p))
  {
    InWalkIff(walk, p);
    var i, j :| 0 <= i < |walk| && 0 <= j < |walk[i].files|
             && IsMediaName(walk[i].files[j]) && p == Join(walk[i].root, walk[i].files[j]);
    BasenameOfJoin(walk[i].root, walk[i].files[j]);
  }

  /** Letter case does not matter. */
  lemma UpperCaseMediaName()
    ensures IsMediaName("AULA.MP4")
  {
    assert Lower("AULA.MP4") == "aula.mp4";
    assert EndsWith("aula.mp4", VideoExtensions[0]);
  }

  /** Every media name ends, in lower case, with one of the last letters
      of the nine extensions. */
  lemma MediaNameLastLetter(name: string)
    ensures IsMediaName(name) ==> |name| > 0 && Lower(name)[|name| - 1] in "4vimg3"
  {
    if IsMediaName(name) {
      var k :| 0 <= k < |VideoExtensions| && EndsWith(Lower(name), VideoExtensions[k]);
      var e := VideoExtensions[k];
      assert Lower(name)[|name| - 1] == e[|e| - 1];
    }
  }

  /** So a text file is not picked up. */
  lemma TextFileIsNotMedia()
    ensures !IsMediaName("notas.txt")
  {
    var name := "notas.txt";
    assert Lower(name)[|name| - 1] == 't';
    MediaNameLastLetter(name);
  }

  /** The outcome of pressing "Iniciar": a warning when no source is chosen,
      an error when nothing was found, otherwise a run over a non-empty
      list. */
  datatype Start = NoSource | NothingFound | Launch(files: seq<string>)

  method PrepareRun(mode: Mode, origin: string, isFile: string -> bool, isDir: string -> bool,
                    walk: seq<WalkStep>)
    returns (start: Start)
    ensures origin == [] ==> start == NoSource
    ensures origin != [] && Candidates(mode, origin, isFile, isDir, walk) == [] ==> start == NothingFound
    ensures origin != [] && Candidates(mode, origin, isFile, isDir, walk) != [] ==>
              start == Launch(Candidates(mode, origin, isFile, isDir, walk))
  {
    if origin == [] {
      return NoSource;
    }
    var list := CollectMedia(mode, origin, isFile, isDir, walk);
    if list == [] {
      return NothingFound;
    }
    return Launch(list);
  }
}
