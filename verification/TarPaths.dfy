/**
 Archive paths: cutting them at slashes, the names an archive may hold, and files used as directories. A path is taken
 apart by the program; here it is also described as a text, by its pieces between slashes and the characters it may
 have.
 */
module TarPaths {
  import opened Common
  import opened TarReader

  const MAXIMUM_PATH_BYTES := 1_024

  /** UTF-8, as a partial decoder and a length; no law about it is assumed. */
  datatype TextCodec = TextCodec(decode: seq<byte> -> Option<string>, encodedLength: string -> nat)

  datatype Kind = Directory | File

  datatype ArchivePath = ArchivePath(relative: string, root: string)

  function IndexOf(s: string, c: char): (i: nat)
    ensures i <= |s| && (forall j | 0 <= j < i :: s[j] != c) && (i < |s| ==> s[i] == c)
  {
    if s == [] || s[0] == c then 0 else 1 + IndexOf(s[1..], c)
  }

  function Split(s: string): (segments: seq<string>)
    ensures segments != []
    decreases |s|
  {
    var i := IndexOf(s, '/');
    if i == |s| then [s] else [s[..i]] + Split(s[i + 1..])
  }

  function Join(segments: seq<string>): string {
    if segments == [] then ""
    else if |segments| == 1 then segments[0]
    else segments[0] + "/" + Join(segments[1..])
  }

  predicate Suffix(s: string, end: string) {
    |end| <= |s| && s[|s| - |end|..] == end
  }

  predicate ControlCharacter(c: char) {
    c <= '\U{1f}' || c == '\U{7f}'
  }

  /** The root and the path under it, for a path an archive is allowed to name. */
  function NormalizeArchivePath(codec: TextCodec, path: string): Result<ArchivePath, ArchiveError> {
    var normalized := if Suffix(path, "/") then path[..|path| - 1] else path;
    if normalized == "" || normalized[0] == '/' || '\\' in normalized
      || (exists c | c in normalized :: ControlCharacter(c))
       || codec.encodedLength(normalized) > MAXIMUM_PATH_BYTES then Err(InvalidArchive)
    else
      var segments := Split(normalized);
      if exists s | s in segments :: s == "" || s == "." || s == ".." then Err(InvalidArchive)
      else if exists s | s in segments[1..] :: s == ".git" || s == "node_modules" then Err(UnsupportedSource)
      else
        var relative := Join(segments[1..]);
        if relative == ".npmrc" || relative == "npm-shrinkwrap.json" || Suffix(relative, "/.npmrc") then
          Err(UnsupportedSource)
        else Ok(ArchivePath(relative, segments[0]))
  }

  // What a path may look like

  /** A stretch of the path between two slashes, or between one and an end of the path. */
  ghost predicate IsPiece(path: string, i: int, j: int) {
    && 0 <= i <= j <= |path| && '/' !in path[i..j]
    && (i > 0 ==> path[i - 1] == '/') && (j < |path| ==> path[j] == '/')
  }

  /** No piece from offset `from` on is of the kind. */
  ghost predicate PiecesAvoid(path: string, from: nat, kind: string -> bool) {
    forall i: int, j: int {:trigger IsPiece(path, i, j)} | from <= i && IsPiece(path, i, j) :: !kind(path[i..j])
  }

  predicate Dots(piece: string) {
    piece == "" || piece == "." || piece == ".."
  }

  predicate Installed(piece: string) {
    piece == ".git" || piece == "node_modules"
  }

  /** The root is all there is, or what comes before the first slash. */
  predicate Under(path: string, root: string, relative: string) {
    '/' !in root && path == (if relative == "" then root else root + "/" + relative)
  }

  /** A relative path of proper pieces, short enough, without backslashes and control characters. */
  ghost predicate ProperPath(codec: TextCodec, path: string) {
    && path != "" && codec.encodedLength(path) <= 1_024
    && (forall c | c in path :: c != '\\' && 32 <= c as int && c as int != 127)
    && PiecesAvoid(path, 0, Dots)
  }

  /** What an archive may not hold below its root: version control, installed packages and npm's own configuration. */
  ghost predicate OffLimits(path: string, relative: string) {
    || !PiecesAvoid(path, 1, Installed)
    || relative == ".npmrc" || relative == "npm-shrinkwrap.json"
    || (|relative| >= 7 && relative[|relative| - 7..] == "/.npmrc")
  }

  function LessSlash(path: string): string {
    if path != "" && path[|path| - 1] == '/' then path[..|path| - 1] else path
  }

  lemma {:induction false} NoSlash(path: string)
    requires '/' !in path
    ensures IndexOf(path, '/') == |path| && Split(path) == [path]
  {}

  lemma {:induction false} SplitRoot(root: string, rest: string)
    requires '/' !in root
    ensures Split(root + "/" + rest) == [root] + Split(rest)
  {
    var path := root + "/" + rest;
    var k := IndexOf(path, '/');
    assert path[|root|] == '/' && forall j | 0 <= j < |root| :: path[j] == root[j];
    assert k == |root| && path[..k] == root && path[k + 1..] == rest;
  }

  lemma {:induction false} JoinSplit(path: string)
    ensures Join(Split(path)) == path
    decreases |path|
  {
    var k := IndexOf(path, '/');
    if k < |path| {
      JoinSplit(path[k + 1..]);
      JoinCons(path[..k], Split(path[k + 1..]));
      assert path == path[..k] + "/" + path[k + 1..];
    } else {
      NoSlash(path);
    }
  }

  /** Every path has a root, and what is below it. */
  lemma {:induction false} PathUnder(path: string) returns (root: string, relative: string)
    ensures '/' !in root && (path == root || path == root + "/" + relative)
    ensures Split(path) == if path == root then [root] else [root] + Split(relative)
    ensures path == root ==> relative == ""
  {
    var k := IndexOf(path, '/');
    root := path[..k];
    assert '/' !in root by {
      assert forall j | 0 <= j < k :: root[j] == path[j];
    }
    if k < |path| {
      relative := path[k + 1..];
      assert path == root + "/" + relative;
      SplitRoot(root, relative);
    } else {
      relative := "";
      assert path == root;
      NoSlash(path);
    }
  }

  lemma {:induction false} JoinedAt(root: string, rest: string, k: nat)
    requires k < |root| + 1 + |rest|
    ensures (root + "/" + rest)[k] == if k < |root| then root[k] else if k == |root| then '/' else rest[k - |root| - 1]
  {}

  lemma {:induction false} SliceBelow(root: string, rest: string, i: nat, j: nat)
    requires |root| < i <= j <= |root| + 1 + |rest|
    ensures (root + "/" + rest)[i..j] == rest[i - |root| - 1..j - |root| - 1]
  {}

  lemma {:induction false} PieceBelow(root: string, rest: string, i: int, j: int)
    requires i > |root|
    ensures var path := root + "/" + rest;
            && (IsPiece(path, i, j) <==> IsPiece(rest, i - |root| - 1, j - |root| - 1))
            && (IsPiece(path, i, j) ==> path[i..j] == rest[i - |root| - 1..j - |root| - 1])
  {
    if i <= j <= |root| + 1 + |rest| {
      SliceBelow(root, rest, i, j);
      JoinedAt(root, rest, i - 1);
      if j < |root| + 1 + |rest| {
        JoinedAt(root, rest, j);
      }
    }
  }

  lemma {:induction false} PieceAbove(root: string, rest: string, i: int, j: int)
    requires '/' !in root && i <= |root|
    ensures IsPiece(root + "/" + rest, i, j) <==> i == 0 && j == |root|
  {
    var path, n := root + "/" + rest, |root|;
    assert forall k | 0 <= k < n :: root[k] in root && path[k] == root[k];
    JoinedAt(root, rest, n);
    if 0 <= i < j <= |path| && n < j {
      assert path[i..j][n - i] == '/';
    }
    assert path[0..n] == root;
  }

  /** The first piece ends at the first slash; the others are the pieces of what is behind it. */
  lemma {:induction false} PiecesUnder(root: string, rest: string, i: int, j: int)
    requires '/' !in root
    ensures var path := root + "/" + rest;
            IsPiece(path, i, j) <==> (i == 0 && j == |root|) || IsPiece(rest, i - |root| - 1, j - |root| - 1)
    ensures var path := root + "/" + rest;
            IsPiece(rest, i - |root| - 1, j - |root| - 1) ==> path[i..j] == rest[i - |root| - 1..j - |root| - 1]
    ensures (root + "/" + rest)[..|root|] == root
  {
    assert (root + "/" + rest)[..|root|] == root;
    if i > |root| {
      PieceBelow(root, rest, i, j);
    } else {
      PieceAbove(root, rest, i, j);
    }
  }

  /** A path without a slash is its only piece. */
  lemma {:induction false} OnePiece(path: string, i: int, j: int)
    requires '/' !in path
    ensures IsPiece(path, i, j) <==> i == 0 && j == |path|
  {
    assert forall k | 0 <= k < |path| :: path[k] in path;
    assert path[0..|path|] == path;
  }

  /** What a cut avoids, its pieces avoid. */
  lemma {:induction false} PiecesOfSplit(path: string, kind: string -> bool)
    ensures (forall s | s in Split(path) :: !kind(s)) <==> PiecesAvoid(path, 0, kind)
    decreases |path|
  {
    var root, rest := PathUnder(path);
    if path == root {
      forall i: int, j: int ensures IsPiece(path, i, j) <==> i == 0 && j == |path| {
        OnePiece(path, i, j);
      }
      assert path in Split(path) && path[0..|path|] == path && IsPiece(path, 0, |path|);
    } else {
      PiecesOfSplit(rest, kind);
      RestAvoids(root, rest, kind);
    }
  }

  lemma {:induction false} RestAvoids(root: string, rest: string, kind: string -> bool)
    requires '/' !in root
    ensures PiecesAvoid(root + "/" + rest, 1, kind) <==> PiecesAvoid(rest, 0, kind)
    ensures PiecesAvoid(root + "/" + rest, 0, kind) <==> !kind(root) && PiecesAvoid(rest, 0, kind)
  {
    var path, n := root + "/" + rest, |root|;
    forall i: int, j: int
      ensures IsPiece(path, i, j) <==> (i == 0 && j == n) || IsPiece(rest, i - n - 1, j - n - 1)
      ensures IsPiece(rest, i - n - 1, j - n - 1) ==> path[i..j] == rest[i - n - 1..j - n - 1]
    {
      PiecesUnder(root, rest, i, j);
    }
    PiecesUnder(root, rest, 0, n);
    assert path[0..n] == root;
    if PiecesAvoid(path, 1, kind) {
      forall i: int, j: int | 0 <= i && IsPiece(rest, i, j) ensures !kind(rest[i..j]) {
        assert IsPiece(rest, i + n + 1 - n - 1, j + n + 1 - n - 1);
        assert IsPiece(path, i + n + 1, j + n + 1);
      }
    }
  }

  lemma {:induction false} CutParts(path: string, root: string, relative: string)
    requires Under(path, root, relative)
    ensures Split(path)[0] == root && Join(Split(path)[1..]) == relative
  {
    if relative == "" {
      NoSlash(path);
    } else {
      SplitRoot(root, relative);
      JoinSplit(relative);
    }
  }

  lemma {:induction false} CutBelow(path: string, root: string, relative: string, kind: string -> bool)
    requires Under(path, root, relative)
    ensures (forall s | s in Split(path)[1..] :: !kind(s)) <==> PiecesAvoid(path, 1, kind)
  {
    if relative == "" {
      NoSlash(path);
      forall i: int, j: int ensures IsPiece(path, i, j) <==> i == 0 && j == |path| {
        OnePiece(path, i, j);
      }
    } else {
      SplitRoot(root, relative);
      PiecesOfSplit(relative, kind);
      RestAvoids(root, relative, kind);
    }
  }

  lemma {:induction false} SlashAtEnd(codec: TextCodec, path: string)
    ensures path != "" && (path[0] == '/' || path[|path| - 1] == '/') ==> !ProperPath(codec, path)
  {
    if path != "" && path[0] == '/' {
      assert IsPiece(path, 0, 0) && path[0..0] == "";
    }
    if path != "" && path[|path| - 1] == '/' {
      assert IsPiece(path, |path|, |path|) && path[|path|..|path|] == "";
    }
  }

  /** A proper path has two parts as `Under` says. */
  lemma {:induction false} ProperUnder(codec: TextCodec, path: string) returns (root: string, relative: string)
    requires ProperPath(codec, path)
    ensures Under(path, root, relative)
  {
    root, relative := PathUnder(path);
    SlashAtEnd(codec, path);
    assert path == root || path[|root|] == '/';
  }

  /** The two parts of a path are determined by it. */
  lemma {:induction false} UnderUnique(path: string, root: string, relative: string, r: string, t: string)
    requires Under(path, root, relative) && Under(path, r, t)
    ensures r == root && t == relative
  {
    CutParts(path, root, relative);
    CutParts(path, r, t);
  }

  lemma {:induction false} PlainExactly(path: string)
    ensures '\\' in path || (exists c | c in path :: ControlCharacter(c)) <==>
            !forall c | c in path :: c != '\\' && 32 <= c as int && c as int != 127
  {
    forall c | c in path ensures ControlCharacter(c) <==> !(32 <= c as int && c as int != 127) {}
  }

  lemma {:induction false} DotsExactly(path: string)
    ensures (exists s | s in Split(path) :: s == "" || s == "." || s == "..") <==> !PiecesAvoid(path, 0, Dots)
  {
    PiecesOfSplit(path, Dots);
    forall s ensures Dots(s) <==> s == "" || s == "." || s == ".." {}
  }

  lemma {:induction false} InstalledExactly(path: string, root: string, relative: string)
    requires Under(path, root, relative)
    ensures (exists s | s in Split(path)[1..] :: s == ".git" || s == "node_modules") <==>
            !PiecesAvoid(path, 1, Installed)
  {
    CutBelow(path, root, relative, Installed);
    forall s ensures Installed(s) <==> s == ".git" || s == "node_modules" {}
  }

  /** The check of the text before it is cut, and of its pieces. */
  lemma {:induction false} FlawExactly(codec: TextCodec, path: string)
    ensures ProperPath(codec, path) <==>
            && path != "" && path[0] != '/' && '\\' !in path && !(exists c | c in path :: ControlCharacter(c))
            && codec.encodedLength(path) <= MAXIMUM_PATH_BYTES
            && !(exists s | s in Split(path) :: s == "" || s == "." || s == "..")
  {
    PlainExactly(path);
    DotsExactly(path);
    SlashAtEnd(codec, path);
  }

  lemma {:induction false} Normalized(codec: TextCodec, path: string)
    ensures var n := LessSlash(path);
            NormalizeArchivePath(codec, path) ==
            if !ProperPath(codec, n) then Err(InvalidArchive)
            else if exists s | s in Split(n)[1..] :: s == ".git" || s == "node_modules" then Err(UnsupportedSource)
            else
              var relative := Join(Split(n)[1..]);
              if relative == ".npmrc" || relative == "npm-shrinkwrap.json" || Suffix(relative, "/.npmrc")
              then Err(UnsupportedSource) else Ok(ArchivePath(relative, Split(n)[0]))
  {
    var n := LessSlash(path);
    assert n == if Suffix(path, "/") then path[..|path| - 1] else path;
    FlawExactly(codec, n);
  }

  lemma {:induction false} ProperTaken(codec: TextCodec, path: string, root: string, relative: string)
    requires ProperPath(codec, LessSlash(path)) && Under(LessSlash(path), root, relative)
    ensures NormalizeArchivePath(codec, path) ==
            if OffLimits(LessSlash(path), relative) then Err(UnsupportedSource) else Ok(ArchivePath(relative, root))
  {
    Normalized(codec, path);
    CutParts(LessSlash(path), root, relative);
    InstalledExactly(LessSlash(path), root, relative);
  }

  /** The path of an entry, as the two parts it is recorded under. */
  ghost predicate Names(codec: TextCodec, path: string, root: string, relative: string) {
    && ProperPath(codec, LessSlash(path)) && Under(LessSlash(path), root, relative)
    && !OffLimits(LessSlash(path), relative)
  }

  /**
   What a path in the archive is taken for: without one slash at its end it has to be proper, then it must not lead
   off limits, and then it is a root and a path below it.
   */
  lemma {:induction false} PathExactly(codec: TextCodec, path: string, root: string, relative: string)
    ensures NormalizeArchivePath(codec, path) == Ok(ArchivePath(relative, root)) <==> Names(codec, path, root, relative)
    ensures NormalizeArchivePath(codec, path) == Err(InvalidArchive) <==> !ProperPath(codec, LessSlash(path))
    ensures ProperPath(codec, LessSlash(path)) && Under(LessSlash(path), root, relative) ==>
            (NormalizeArchivePath(codec, path) == Err(UnsupportedSource) <==> OffLimits(LessSlash(path), relative))
  {
    if ProperPath(codec, LessSlash(path)) {
      var r, t := ProperUnder(codec, LessSlash(path));
      ProperTaken(codec, path, r, t);
      if Under(LessSlash(path), root, relative) {
        UnderUnique(LessSlash(path), root, relative, r, t);
      }
    } else {
      Normalized(codec, path);
    }
  }

  /** Some proper ancestor of `path`, cut at its slashes, is recorded as a file. */
  predicate FileAbove(paths: map<string, Kind>, path: string) {
    exists i | 1 <= i < |Split(path)| :: Join(Split(path)[..i]) in paths && paths[Join(Split(path)[..i])] == File
  }

  predicate FileAsParent(paths: map<string, Kind>) {
    exists path | path in paths :: FileAbove(paths, path)
  }

  method HasFileAsParent(paths: map<string, Kind>) returns (found: bool)
    ensures found == FileAsParent(paths)
  {
    var rest := paths.Keys;
    while rest != {}
      invariant rest <= paths.Keys
      invariant forall path | path in paths.Keys - rest :: !FileAbove(paths, path)
      decreases rest
    {
      var path :| path in rest;
      var segments := Split(path);
      var i := 1;
      while i < |segments|
        invariant 1 <= i <= |segments|
        invariant forall k | 1 <= k < i :: !(Join(segments[..k]) in paths && paths[Join(segments[..k])] == File)
      {
        var parent := Join(segments[..i]);
        if parent in paths && paths[parent] == File {
          return true;
        }
        i := i + 1;
      }
      rest := rest - {path};
    }
    found := false;
  }

  /** `ancestor` is a directory on the way to `path`. */
  predicate Above(ancestor: string, path: string) {
    ancestor + "/" <= path
  }

  lemma {:induction false} JoinCons(first: string, rest: seq<string>)
    requires rest != []
    ensures Join([first] + rest) == first + "/" + Join(rest)
  {
    assert ([first] + rest)[1..] == rest;
  }

  lemma {:induction false} PrefixUnder(first: string, inner: string, tail: string)
    requires Above(inner, tail)
    ensures Above(first + "/" + inner, first + "/" + tail)
  {
    Regroup(first + "/", inner, "/");
    assert (first + "/" + tail)[..|first| + 1 + |inner + "/"|] == first + "/" + (inner + "/");
  }

  lemma {:induction false} CutIsAbove(path: string, i: nat)
    requires 1 <= i < |Split(path)|
    ensures Above(Join(Split(path)[..i]), path)
    decreases i
  {
    var k := IndexOf(path, '/');
    var first, tail := path[..k], path[k + 1..];
    assert path == first + "/" + tail;
    if i == 1 {
      assert Split(path)[..1] == [first];
      assert path[..k + 1] == first + "/";
    } else {
      var rest := Split(tail)[..i - 1];
      assert Split(path)[..i] == [first] + rest;
      CutIsAbove(tail, i - 1);
      JoinCons(first, rest);
      PrefixUnder(first, Join(rest), tail);
    }
  }

  lemma {:induction false} FirstSlash(ancestor: string, path: string)
    requires Above(ancestor, path)
    ensures IndexOf(path, '/') <= |ancestor|
    ensures IndexOf(path, '/') == |ancestor| ==> path[..IndexOf(path, '/')] == ancestor
    ensures IndexOf(path, '/') < |ancestor| ==>
              var k := IndexOf(path, '/');
                  ancestor == path[..k] + "/" + ancestor[k + 1..] && Above(ancestor[k + 1..], path[k + 1..])
  {
    var k := IndexOf(path, '/');
    assert path[|ancestor|] == (ancestor + "/")[|ancestor|] == '/';
    if k < |ancestor| {
      assert ancestor[k] == path[k] && ancestor[..k] == path[..k];
      assert (ancestor + "/")[k + 1..] == ancestor[k + 1..] + "/";
    }
  }

  /** Cutting a path one piece later, from how what is behind its first slash is cut. */
  lemma {:induction false} CutFurther(path: string, i: nat)
    requires var k := IndexOf(path, '/'); k < |path| && 1 <= i < |Split(path[k + 1..])|
    ensures var k := IndexOf(path, '/');
            && i + 1 < |Split(path)|
            && Join(Split(path)[..i + 1]) == path[..k] + "/" + Join(Split(path[k + 1..])[..i])
  {
    var k := IndexOf(path, '/');
    var tail := Split(path[k + 1..]);
    assert Split(path)[..i + 1] == [path[..k]] + tail[..i];
    JoinCons(path[..k], tail[..i]);
  }

  lemma {:induction false} AboveIsCut(ancestor: string, path: string) returns (i: nat)
    requires Above(ancestor, path)
    ensures 1 <= i < |Split(path)| && Join(Split(path)[..i]) == ancestor
    decreases |path|
  {
    var k := IndexOf(path, '/');
    FirstSlash(ancestor, path);
    if k == |ancestor| {
      i := 1;
      assert Split(path)[..1] == [path[..k]];
    } else {
      i := AboveIsCut(ancestor[k + 1..], path[k + 1..]);
      CutFurther(path, i);
      i := i + 1;
    }
  }

  /** The cut-by-cut search finds exactly the files that have a recorded path below them. */
  lemma FileAsParentMeaning(paths: map<string, Kind>)
    ensures FileAsParent(paths) <==> exists file, path | file in paths && path in paths ::
            paths[file] == File && Above(file, path)
  {
    if FileAsParent(paths) {
      var path :| path in paths && FileAbove(paths, path);
      var i :| 1 <= i < |Split(path)| && Join(Split(path)[..i]) in paths && paths[Join(Split(path)[..i])] == File;
      CutIsAbove(path, i);
    }
    if file, path :| file in paths && path in paths && paths[file] == File && Above(file, path) {
      var i := AboveIsCut(file, path);
      assert FileAbove(paths, path);
    }
  }
}
