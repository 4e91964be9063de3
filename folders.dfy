/** The desktop back end's folder scan: which walked files count as images
    (`is_image`) and how `load_images_from_dir` buckets them by parent
    directory into the groups the gallery shows, each group's images sorted
    and the groups ordered with the chosen folder first. */
module Folders {
  import opened Wrappers
  import Paths
  import Strings

  /** One gallery section: a directory's display name, its path and the
      paths of the images found directly in it. */
  datatype FolderImages = FolderImages(name: string, path: string, images: seq<string>)

  /** One item yielded by the recursive directory walk: an entry, with its
      path and whether it is a regular file, or an error the scan skips. */
  datatype WalkItem = Entry(path: string, isFile: bool) | WalkError

  /** An extension `is_image` accepts once lower-cased. */
  function IsImageExtension(ext: string): (accepted: bool)
    ensures accepted ==> 3 <= |ext| <= 4
  {
    var e := Strings.AsciiLower(ext);
    e == "jpg" || e == "jpeg" || e == "png" || e == "gif" || e == "bmp" || e == "webp" || e == "tiff" || e == "svg"
  }

  /** Name of the root group when the chosen path has no last component. */
  const RootFallbackName: string := "根目录"

  /** Error text for a root that is missing or is not a directory. */
  const UnavailableMessage: string := "选择的路径不可用"

  // ---------------------------------------------------------------------
  // Path pieces
  // ---------------------------------------------------------------------

  /** `Path::file_name`: the last '/'-separated component; absent when that
      component is empty or "..". */
  function FileName(path: string): Option<string>
  {
    var last := Paths.LastSegment(path, {'/'});
    if last == "" || last == ".." then None else Some(last)
  }

  /** `Path::extension` of a file name: what follows its last '.', absent
      when there is no '.', when the only '.' starts the name, or for "..". */
  function Extension(name: string): Option<string>
  {
    var i := Paths.LastSep(name, {'.'});
    if name == ".." || i <= 0 then None else Some(name[i + 1..])
  }

  /** `is_image`: the extension, ASCII-lowercased, is one of the table's. */
  predicate IsImage(path: string)
  {
    match FileName(path)
    case None => false
    case Some(name) =>
      match Extension(name)
      case None => false
      case Some(ext) => IsImageExtension(ext)
  }

  /** `k` is a '.' that is not the first character of its component. */
  predicate ExtensionDot(path: string, k: int)
  {
    0 < k < |path| && path[k] == '.' && path[k - 1] != '/'
  }

  /** An independent statement of `is_image` on the characters of the path:
      some '.' that is not the first character of the file name is followed
      by neither '.' nor '/', and what follows it is a table extension in
      any ASCII case. */
  ghost predicate HasImageExtension(path: string)
  {
    exists k :: ExtensionDot(path, k)
      && (forall m :: k < m < |path| ==> path[m] != '.' && path[m] != '/')
      && IsImageExtension(path[k + 1..])
  }

  lemma IsImageIff(path: string)
    ensures IsImage(path) <==> HasImageExtension(path)
  {
    if IsImage(path) {
      ImageHasExtension(path);
    }
    if HasImageExtension(path) {
      ExtensionMakesImage(path);
    }
  }

  /** The file name starts after the last '/'. */
  lemma FileNameIs(path: string, j: int)
    requires 0 <= j < |path| && (j > 0 ==> path[j - 1] == '/')
    requires forall m :: j <= m < |path| ==> path[m] != '/'
    requires path[j..] != ".."
    ensures FileName(path) == Some(path[j..])
  {
    Paths.LastSepIs(path, {'/'}, j - 1);
  }

  /** The extension starts after the last '.', when that is not the first
      character of the name. */
  lemma ExtensionIs(name: string, d: int)
    requires 0 < d < |name| && name[d] == '.'
    requires forall m :: d < m < |name| ==> name[m] != '.'
    requires name != ".."
    ensures Extension(name) == Some(name[d + 1..])
  {
    Paths.LastSepIs(name, {'.'}, d);
  }

  lemma ImageHasExtension(path: string)
    requires IsImage(path)
    ensures HasImageExtension(path)
  {
    var j := FileNameParts(path);
    var name := path[j..];
    var d := ExtensionParts(name);
    DotInName(path, j, d);
    assert IsImageExtension(path[j + d + 1..]);
  }

  /** The '.' before the extension of the file name `path[j..]`, seen as a
      position in the whole path. */
  lemma DotInName(path: string, j: int, d: int)
    requires 0 <= j && 0 < d && j + d < |path|
    requires forall m :: j <= m < |path| ==> path[m] != '/'
    requires path[j + d] == '.' && forall m :: j + d < m < |path| ==> path[m] != '.'
    ensures ExtensionDot(path, j + d)
    ensures forall m :: j + d < m < |path| ==> path[m] != '.' && path[m] != '/'
    ensures path[j + d + 1..] == path[j..][d + 1..]
  {
  }

  /** Where the file name starts: after the last '/'. */
  lemma FileNameParts(path: string) returns (j: int)
    requires FileName(path).Some?
    ensures 0 <= j < |path| && FileName(path).value == path[j..]
    ensures j > 0 ==> path[j - 1] == '/'
    ensures forall m :: j <= m < |path| ==> path[m] != '/'
  {
    Paths.LastSepSpec(path, {'/'});
    j := Paths.LastSep(path, {'/'}) + 1;
  }

  /** Where the extension starts: after the last '.', which is not the
      first character. */
  lemma ExtensionParts(name: string) returns (d: int)
    requires Extension(name).Some?
    ensures 0 < d < |name| && name[d] == '.' && Extension(name).value == name[d + 1..]
    ensures forall m :: d < m < |name| ==> name[m] != '.'
  {
    Paths.LastSepSpec(name, {'.'});
    d := Paths.LastSep(name, {'.'});
  }

  lemma ExtensionMakesImage(path: string)
    requires HasImageExtension(path)
    ensures IsImage(path)
  {
    var k :| ExtensionDot(path, k)
      && (forall m :: k < m < |path| ==> path[m] != '.' && path[m] != '/')
      && IsImageExtension(path[k + 1..]);
    var j := NameAroundDot(path, k);
    ExtensionAfterDot(path, j, k);
    ImageFromParts(path, path[j..], path[k + 1..]);
  }

  /** The extension of the file name `path[j..]` is what follows its '.' at `k`. */
  lemma ExtensionAfterDot(path: string, j: int, k: int)
    requires 0 <= j < k && k + 1 < |path| && path[k] == '.'
    requires forall m :: k < m < |path| ==> path[m] != '.'
    ensures Extension(path[j..]) == Some(path[k + 1..])
  {
    var name := path[j..];
    forall m | k - j < m < |name|
      ensures name[m] != '.'
    {
      assert name[m] == path[m + j];
    }
    ExtensionIs(name, k - j);
    assert name[k - j + 1..] == path[k + 1..];
  }

  /** `is_image` from its two steps. */
  lemma ImageFromParts(path: string, name: string, ext: string)
    requires FileName(path) == Some(name) && Extension(name) == Some(ext) && IsImageExtension(ext)
    ensures IsImage(path)
  {
  }

  /** A '.' inside the last component lies in the file name, which starts
      at `j`. */
  lemma NameAroundDot(path: string, k: int) returns (j: int)
    requires ExtensionDot(path, k) && k + 1 < |path|
    requires forall m :: k < m < |path| ==> path[m] != '/'
    ensures 0 <= j < k && FileName(path) == Some(path[j..])
  {
    Paths.LastSepSpec(path, {'/'});
    j := Paths.LastSep(path, {'/'}) + 1;
    assert |path[j..]| >= 3;
    FileNameIs(path, j);
  }

  /** The table is matched in any ASCII case. */
  lemma UpperCaseAccepted()
    ensures IsImageExtension("JPG") && IsImageExtension("WebP")
  {
    assert Strings.AsciiLower("JPG") == "jpg";
    assert Strings.AsciiLower("WebP") == "webp";
  }

  /** ".tif" and ".jpe" are not in the table. */
  lemma ShortFormsRejected()
    ensures !IsImageExtension("tif") && !IsImageExtension("JPE")
  {
    assert Strings.AsciiLower("tif") == "tif";
    assert Strings.AsciiLower("JPE") == "jpe";
  }

  /** Only the text after the last '.' counts. */
  lemma LastDotCounts()
    ensures Extension("a.png.txt") == Some("txt")
    ensures Extension("archive.tar.gz") == Some("gz")
  {
    ExtensionIs("a.png.txt", 5);
    ExtensionIs("archive.tar.gz", 11);
  }

  /** A name without '.', a dot file and ".." have no extension. */
  lemma NoExtension()
    ensures Extension("readme") == None
    ensures Extension(".png") == None
    ensures Extension("..") == None
  {
    Paths.LastSepIs("readme", {'.'}, -1);
    Paths.LastSepIs(".png", {'.'}, 0);
  }

  /** The file name is the last component of the path. */
  lemma FileNamesFound()
    ensures FileName("/photos/trip/b.webp") == Some("b.webp")
    ensures FileName("b.webp") == Some("b.webp")
  {
    FileNameIs("/photos/trip/b.webp", 13);
    FileNameIs("b.webp", 0);
  }

  /** A trailing "..", or the file-system root alone, gives no file name. */
  lemma FileNamesMissing()
    ensures FileName("/photos/..") == None
    ensures FileName("/") == None
  {
    Paths.LastSepIs("/photos/..", {'/'}, 7);
    Paths.LastSepIs("/", {'/'}, 0);
  }

  /** `Path::parent` of a walked file: the text before its last '/'; "/"
      when that '/' is the first character; "" when there is none. */
  function Parent(path: string): (dir: string)
    ensures |dir| <= |path| && dir == path[..|dir|]
    ensures forall k :: |dir| < k < |path| ==> path[k] != '/'
  {
    Paths.LastSepSpec(path, {'/'});
    var i := Paths.LastSep(path, {'/'});
    if i <= 0 then path[..i + 1] else path[..i]
  }

  /** The last component of a directory path, the name a group shows. */
  function DirName(dir: string): (name: string)
    ensures |name| <= |dir| && name == dir[|dir| - |name|..] && '/' !in name
  {
    Paths.LastSegmentSpec(dir, {'/'});
    Paths.LastSegment(dir, {'/'})
  }

  /** The root group's name: the root's file name, or the fallback. */
  function RootName(root: string): (name: string)
    ensures name != ""
  {
    match FileName(root)
    case Some(name) => name
    case None => RootFallbackName
  }

  /** A file named `name` inside directory `dir` has `dir` as its parent,
      and the joined path's last component is `name`. */
  lemma ParentOfJoin(dir: string, name: string)
    requires dir != "" && '/' !in name
    ensures Parent(dir + "/" + name) == dir
    ensures DirName(dir + "/" + name) == name
  {
    var p := dir + "/" + name;
    Paths.LastSepIs(p, {'/'}, |dir|);
    assert p[..|dir|] == dir;
    assert p[|dir| + 1..] == name;
  }

  // ---------------------------------------------------------------------
  // What the walk yields
  // ---------------------------------------------------------------------

  predicate IsImageFile(item: WalkItem)
  {
    item.Entry? && item.isFile && IsImage(item.path)
  }

  /** The image files of a walk, in walk order: errors, directories and
      other files are skipped. */
  function WalkedImages(walk: seq<WalkItem>): (imgs: seq<string>)
    ensures |imgs| <= |walk|
  {
    if walk == [] then []
    else
      var last := walk[|walk| - 1];
      WalkedImages(walk[..|walk| - 1]) + (if IsImageFile(last) then [last.path] else [])
  }

  /** Only images come out of the walk. */
  lemma {:induction false} WalkedAreImages(walk: seq<WalkItem>)
    ensures forall p :: p in WalkedImages(walk) ==> IsImage(p)
  {
    if walk != [] {
      WalkedAreImages(walk[..|walk| - 1]);
    }
  }

  /** The paths among `paths` whose parent is `dir`, in their order. */
  function InDir(dir: string, paths: seq<string>): seq<string>
  {
    if paths == [] then []
    else
      var last := paths[|paths| - 1];
      InDir(dir, paths[..|paths| - 1]) + (if Parent(last) == dir then [last] else [])
  }

  /** `InDir` keeps exactly the paths whose parent is `dir`. */
  lemma {:induction false} InDirMembers(dir: string, paths: seq<string>)
    ensures forall p :: p in InDir(dir, paths) <==> p in paths && Parent(p) == dir
  {
    if paths != [] {
      var init := paths[..|paths| - 1];
      InDirMembers(dir, init);
      assert paths == init + [paths[|paths| - 1]];
    }
  }

  lemma InDirAppend(dir: string, paths: seq<string>, p: string)
    ensures InDir(dir, paths + [p]) == InDir(dir, paths) + (if Parent(p) == dir then [p] else [])
  {
    assert (paths + [p])[..|paths|] == paths;
  }

  /** All images of the groups, group after group. */
  function Flatten(groups: seq<FolderImages>): seq<string>
  {
    if groups == [] then []
    else Flatten(groups[..|groups| - 1]) + groups[|groups| - 1].images
  }

  lemma FlattenSnoc(groups: seq<FolderImages>, g: FolderImages)
    ensures Flatten(groups + [g]) == Flatten(groups) + g.images
  {
    assert (groups + [g])[..|groups|] == groups;
  }

  lemma {:induction false} FlattenConcat(a: seq<FolderImages>, b: seq<FolderImages>)
    ensures Flatten(a + b) == Flatten(a) + Flatten(b)
    decreases |b|
  {
    if b == [] {
      assert a + b == a;
    } else {
      var init, last := b[..|b| - 1], b[|b| - 1];
      assert b == init + [last];
      calc {
        Flatten(a + b);
      == { assert a + b == (a + init) + [last]; FlattenSnoc(a + init, last); }
        Flatten(a + init) + last.images;
      == { FlattenConcat(a, init); }
        (Flatten(a) + Flatten(init)) + last.images;
      == { FlattenSnoc(init, last); }
        Flatten(a) + Flatten(b);
      }
    }
  }

  // ---------------------------------------------------------------------
  // Group order: the comparator given to `sort_by`
  // ---------------------------------------------------------------------

  function LowerName(g: FolderImages): (lower: string)
    ensures |lower| == |g.name|
    ensures forall m :: 0 <= m < |g.name| ==> lower[m] == Strings.LowerChar(g.name[m])
  {
    Strings.AsciiLower(g.name)
  }

  /** The comparator answers `Less` for `a` against `b`: a group at the root
      path always does; otherwise a group at the root path never loses to
      `a`, and lower-cased names decide. */
  predicate ComesFirst(root: string, a: FolderImages, b: FolderImages)
  {
    a.path == root || (b.path != root && Strings.Less(LowerName(a), LowerName(b)))
  }

  /** Two groups at the root path each come first: the comparator is not
      antisymmetric, so it is no total order. */
  lemma ComparatorNotAntisymmetric(root: string, a: FolderImages, b: FolderImages)
    requires a.path == root && b.path == root
    ensures ComesFirst(root, a, b) && ComesFirst(root, b, a)
  {
  }

  /** `a` may stand before `b`: no root-path group follows a non-root one,
      and non-root groups ascend by lower-cased name. */
  predicate InOrder(root: string, a: FolderImages, b: FolderImages)
  {
    && (b.path == root ==> a.path == root)
    && (a.path != root && b.path != root ==> Strings.LessEq(LowerName(a), LowerName(b)))
  }

  predicate FoldersOrdered(root: string, s: seq<FolderImages>)
  {
    forall i, j :: 0 <= i < j < |s| ==> InOrder(root, s[i], s[j])
  }

  /** Two non-root groups with the same lower-cased name, `a` before `b`,
      stand in ascending path order. */
  predicate TieByPath(root: string, a: FolderImages, b: FolderImages)
  {
    a.path != root && b.path != root && LowerName(a) == LowerName(b) ==> Strings.Less(a.path, b.path)
  }

  /** Non-root groups whose names tie are in ascending path order. */
  predicate TiesByPath(root: string, s: seq<FolderImages>)
  {
    forall i, j :: 0 <= i < j < |s| ==> TieByPath(root, s[i], s[j])
  }

  /** The non-root groups ascend by path, as the map's values come out in
      key order. */
  predicate PathsAscending(root: string, s: seq<FolderImages>)
  {
    forall i, j :: 0 <= i < j < |s| && s[i].path != root && s[j].path != root ==> Strings.Less(s[i].path, s[j].path)
  }

  lemma InOrderTransitive(root: string, a: FolderImages, b: FolderImages, c: FolderImages)
    requires InOrder(root, a, b) && InOrder(root, b, c)
    ensures InOrder(root, a, c)
  {
    if a.path != root && c.path != root {
      Strings.LessEqTransitive(LowerName(a), LowerName(b), LowerName(c));
    }
  }

  /** `insert_tail` with the comparator: `x` moves left past every group it
      `ComesFirst` against. */
  function InsertFolder(root: string, x: FolderImages, s: seq<FolderImages>): (r: seq<FolderImages>)
    requires FoldersOrdered(root, s)
    ensures FoldersOrdered(root, r)
    ensures multiset(r) == multiset(s) + multiset{x}
    decreases |s|
  {
    if s == [] then [x]
    else
      var init, last := s[..|s| - 1], s[|s| - 1];
      assert s == init + [last];
      if !ComesFirst(root, x, last) then
        LastThenX(root, s, x);
        s + [x]
      else
        var r := InsertFolder(root, x, init);
        XBeforeLast(root, init, x, last, r);
        r + [last]
  }

  /** Inserting a group adds its images to the images of all groups. */
  lemma {:induction false} InsertFolderKeepsImages(root: string, x: FolderImages, s: seq<FolderImages>)
    requires FoldersOrdered(root, s)
    ensures multiset(Flatten(InsertFolder(root, x, s))) == multiset(Flatten(s)) + multiset(x.images)
    decreases |s|
  {
    if s == [] {
      FlattenSnoc([], x);
    } else {
      var init, last := s[..|s| - 1], s[|s| - 1];
      InsertFolderStep(root, x, s);
      if !ComesFirst(root, x, last) {
        FlattenSnoc(s, x);
      } else {
        InsertFolderKeepsImages(root, x, init);
        ImagesBeforeLast(InsertFolder(root, x, init), init, last, x);
      }
    }
  }

  /** One unfolding of `InsertFolder` on a non-empty list. */
  lemma InsertFolderStep(root: string, x: FolderImages, s: seq<FolderImages>)
    requires FoldersOrdered(root, s) && s != []
    ensures s == s[..|s| - 1] + [s[|s| - 1]]
    ensures !ComesFirst(root, x, s[|s| - 1]) ==> InsertFolder(root, x, s) == s + [x]
    ensures ComesFirst(root, x, s[|s| - 1]) ==>
              InsertFolder(root, x, s) == InsertFolder(root, x, s[..|s| - 1]) + [s[|s| - 1]]
  {
  }

  lemma ImagesBeforeLast(r: seq<FolderImages>, init: seq<FolderImages>, last: FolderImages, x: FolderImages)
    requires multiset(Flatten(r)) == multiset(Flatten(init)) + multiset(x.images)
    ensures multiset(Flatten(r + [last])) == multiset(Flatten(init + [last])) + multiset(x.images)
  {
    FlattenSnoc(r, last);
    FlattenSnoc(init, last);
  }

  lemma LastThenX(root: string, s: seq<FolderImages>, x: FolderImages)
    requires FoldersOrdered(root, s) && s != []
    requires !ComesFirst(root, x, s[|s| - 1])
    ensures FoldersOrdered(root, s + [x])
  {
    var last := s[|s| - 1];
    assert InOrder(root, last, x) by {
      if last.path != root {
        Strings.NotLessIsLessEq(LowerName(x), LowerName(last));
      }
    }
    forall i | 0 <= i < |s| - 1
      ensures InOrder(root, s[i], x)
    {
      InOrderTransitive(root, s[i], last, x);
    }
  }

  lemma XBeforeLast(root: string, init: seq<FolderImages>, x: FolderImages, last: FolderImages, r: seq<FolderImages>)
    requires FoldersOrdered(root, init + [last])
    requires ComesFirst(root, x, last)
    requires FoldersOrdered(root, r)
    requires multiset(r) == multiset(init) + multiset{x}
    ensures FoldersOrdered(root, r + [last])
  {
    forall i | 0 <= i < |r|
      ensures InOrder(root, r[i], last)
    {
      assert r[i] in multiset(r);
      if r[i] != x {
        assert r[i] in multiset(init);
        var j :| 0 <= j < |init| && init[j] == r[i];
        assert (init + [last])[j] == init[j] && (init + [last])[|init|] == last;
        assert InOrder(root, (init + [last])[j], (init + [last])[|init|]);
      }
    }
  }

  /** `sort_by` with the comparator, as the standard library's stable sort
      runs it on a short vector. */
  function SortFolders(root: string, s: seq<FolderImages>): (r: seq<FolderImages>)
    ensures FoldersOrdered(root, r)
    ensures multiset(r) == multiset(s)
  {
    if s == [] then []
    else
      assert s == s[..|s| - 1] + [s[|s| - 1]];
      InsertFolder(root, s[|s| - 1], SortFolders(root, s[..|s| - 1]))
  }

  /** Sorting the groups keeps every image, as often as it was listed. */
  lemma {:induction false} SortFoldersKeepsImages(root: string, s: seq<FolderImages>)
    ensures multiset(Flatten(SortFolders(root, s))) == multiset(Flatten(s))
  {
    if s != [] {
      var init, last := s[..|s| - 1], s[|s| - 1];
      assert s == init + [last];
      SortFoldersKeepsImages(root, init);
      InsertFolderKeepsImages(root, last, SortFolders(root, init));
    }
  }

  /** `sort_by` is stable: groups whose names tie keep their input order, so
      from an input in path order they come out in path order. */
  lemma {:induction false} SortFoldersKeepsTies(root: string, s: seq<FolderImages>)
    requires PathsAscending(root, s)
    ensures TiesByPath(root, SortFolders(root, s))
  {
    if s != [] {
      var init, last := s[..|s| - 1], s[|s| - 1];
      assert s == init + [last];
      SortFoldersKeepsTies(root, init);
      var sorted := SortFolders(root, init);
      forall y | y in sorted && y.path != root && last.path != root
        ensures Strings.Less(y.path, last.path)
      {
        assert y in multiset(sorted);
        assert y in multiset(init);
        var j :| 0 <= j < |init| && init[j] == y;
        assert s[j] == y && s[|s| - 1] == last;
      }
      InsertFolderKeepsTies(root, last, sorted);
    }
  }

  /** An insertion step keeps tied names in path order when the inserted
      group's path is above every non-root path already there. */
  lemma {:induction false} InsertFolderKeepsTies(root: string, x: FolderImages, s: seq<FolderImages>)
    requires FoldersOrdered(root, s) && TiesByPath(root, s)
    requires forall y :: y in s && y.path != root && x.path != root ==> Strings.Less(y.path, x.path)
    ensures TiesByPath(root, InsertFolder(root, x, s))
    decreases |s|
  {
    if s != [] {
      var init, last := s[..|s| - 1], s[|s| - 1];
      assert s == init + [last];
      if !ComesFirst(root, x, last) {
        var r := s + [x];
        forall i, j | 0 <= i < j < |r|
          ensures TieByPath(root, r[i], r[j])
        {
          assert r[i] == s[i];
          if j < |s| {
            assert r[j] == s[j];
          } else {
            assert s[i] in s;
          }
        }
      } else {
        forall y | y in init
          ensures y in s
        {
        }
        InsertFolderKeepsTies(root, x, init);
        TiesBeforeLast(root, init, x, last, InsertFolder(root, x, init));
      }
    }
  }

  /** Putting `last` after the insertion into the groups before it keeps
      tied names in path order. */
  lemma TiesBeforeLast(root: string, init: seq<FolderImages>, x: FolderImages, last: FolderImages, r: seq<FolderImages>)
    requires TiesByPath(root, init + [last])
    requires ComesFirst(root, x, last)
    requires TiesByPath(root, r)
    requires multiset(r) == multiset(init) + multiset{x}
    ensures TiesByPath(root, r + [last])
  {
    forall i | 0 <= i < |r|
      ensures TieByPath(root, r[i], last)
    {
      assert r[i] in multiset(r);
      if r[i] == x {
        if x.path != root && last.path != root {
          Strings.LessIrreflexive(LowerName(x));
        }
      } else {
        assert r[i] in multiset(init);
        var j :| 0 <= j < |init| && init[j] == r[i];
        assert (init + [last])[j] == init[j] && (init + [last])[|init|] == last;
      }
    }
    var t := r + [last];
    forall i, j | 0 <= i < j < |t|
      ensures TieByPath(root, t[i], t[j])
    {
      assert t[i] == r[i];
      if j < |r| {
        assert t[j] == r[j];
      }
    }
  }

  // ---------------------------------------------------------------------
  // The map from key to group, a key-sorted list of slots
  // ---------------------------------------------------------------------

  /** One entry of the `BTreeMap<String, FolderImages>`. */
  datatype Slot = Slot(key: string, folder: FolderImages)

  predicate KeysIncreasing(slots: seq<Slot>)
  {
    forall i, j :: 0 <= i < j < |slots| ==> Strings.Less(slots[i].key, slots[j].key)
  }

  predicate HasKey(slots: seq<Slot>, key: string)
  {
    exists j :: 0 <= j < |slots| && slots[j].key == key
  }

  lemma KeysDistinct(slots: seq<Slot>)
    requires KeysIncreasing(slots)
    ensures forall i, j :: 0 <= i < |slots| && 0 <= j < |slots| && i != j ==> slots[i].key != slots[j].key
  {
    forall i, j | 0 <= i < |slots| && 0 <= j < |slots| && i != j
      ensures slots[i].key != slots[j].key
    {
      if i < j {
        Strings.LessAsymmetric(slots[i].key, slots[j].key);
      } else {
        Strings.LessAsymmetric(slots[j].key, slots[i].key);
      }
    }
  }

  /** `entry(key).or_insert(default)`: the index of `key`'s slot, a slot
      holding `default` being inserted in key order first if there is none. */
  method OrInsert(slots: seq<Slot>, key: string, default: FolderImages) returns (updated: seq<Slot>, index: nat)
    requires KeysIncreasing(slots)
    ensures KeysIncreasing(updated)
    ensures index < |updated| && updated[index].key == key
    ensures HasKey(slots, key) ==> updated == slots
    ensures !HasKey(slots, key) ==>
              index <= |slots| && updated == slots[..index] + [Slot(key, default)] + slots[index..]
  {
    var i := 0;
    while i < |slots| && Strings.Less(slots[i].key, key)
      invariant 0 <= i <= |slots|
      invariant forall j :: 0 <= j < i ==> Strings.Less(slots[j].key, key)
    {
      i := i + 1;
    }
    if i < |slots| && slots[i].key == key {
      return slots, i;
    }
    forall j | 0 <= j < |slots|
      ensures slots[j].key != key
    {
      if j < i {
        Strings.LessIrreflexive(key);
      } else {
        Strings.NotLessIsLessEq(slots[i].key, key);
        if j > i {
          Strings.LessTransitive(key, slots[i].key, slots[j].key);
        }
        Strings.LessIrreflexive(key);
      }
    }
    if i < |slots| {
      Strings.NotLessIsLessEq(slots[i].key, key);
    }
    updated := slots[..i] + [Slot(key, default)] + slots[i..];
    index := i;
    InsertedKeysIncreasing(slots, i, Slot(key, default), updated);
  }

  lemma InsertedKeysIncreasing(slots: seq<Slot>, i: nat, s: Slot, updated: seq<Slot>)
    requires KeysIncreasing(slots) && i <= |slots|
    requires forall j :: 0 <= j < i ==> Strings.Less(slots[j].key, s.key)
    requires i < |slots| ==> Strings.Less(s.key, slots[i].key)
    requires updated == slots[..i] + [s] + slots[i..]
    ensures KeysIncreasing(updated)
  {
    forall a, b | 0 <= a < b < |updated|
      ensures Strings.Less(updated[a].key, updated[b].key)
    {
      if a == i && b > i + 1 {
        Strings.LessTransitive(s.key, slots[i].key, slots[b - 1].key);
      }
    }
  }

  /** All images of the slots, slot after slot. */
  function SlotImages(slots: seq<Slot>): seq<string>
  {
    if slots == [] then []
    else SlotImages(slots[..|slots| - 1]) + slots[|slots| - 1].folder.images
  }

  lemma SlotImagesSnoc(slots: seq<Slot>, s: Slot)
    ensures SlotImages(slots + [s]) == SlotImages(slots) + s.folder.images
  {
    assert (slots + [s])[..|slots|] == slots;
  }

  lemma {:induction false} SlotImagesConcat(a: seq<Slot>, b: seq<Slot>)
    ensures SlotImages(a + b) == SlotImages(a) + SlotImages(b)
    decreases |b|
  {
    if b == [] {
      assert a + b == a;
    } else {
      var init, last := b[..|b| - 1], b[|b| - 1];
      assert b == init + [last];
      calc {
        SlotImages(a + b);
      == { assert a + b == (a + init) + [last]; SlotImagesSnoc(a + init, last); }
        SlotImages(a + init) + last.folder.images;
      == { SlotImagesConcat(a, init); }
        (SlotImages(a) + SlotImages(init)) + last.folder.images;
      == { SlotImagesSnoc(init, last); }
        SlotImages(a) + SlotImages(b);
      }
    }
  }

  // ---------------------------------------------------------------------
  // The scan
  // ---------------------------------------------------------------------

  /** The group the loop builds for the placeholder's key: it is created
      before the walk with the root's name and path, and any image whose
      parent string equals that key is pushed onto it. */
  function RootGroup(root: string, placeholderKey: string, imgs: seq<string>): FolderImages
  {
    FolderImages(RootName(root), root, Strings.SortStrings(InDir(placeholderKey, imgs)))
  }

  /** The group the loop builds for any other parent directory `dir`. */
  function DirGroup(dir: string, imgs: seq<string>): FolderImages
  {
    FolderImages(DirName(dir), dir, Strings.SortStrings(InDir(dir, imgs)))
  }

  /** `g` is the root group or the non-empty group of another directory. */
  predicate GroupFits(root: string, placeholderKey: string, imgs: seq<string>, g: FolderImages)
  {
    g == RootGroup(root, placeholderKey, imgs)
    || (g.path != placeholderKey && g.images != [] && g == DirGroup(g.path, imgs))
  }

  /** Everything promised of the scan's groups, `imgs` being the walked
      images and `placeholderKey` the map key of the root group. */
  predicate GroupedAsWalked(root: string, placeholderKey: string, imgs: seq<string>, groups: seq<FolderImages>)
  {
    // the root group is there even when it holds nothing
    && RootGroup(root, placeholderKey, imgs) in groups
    // every other group is the non-empty group of one parent directory
    && (forall g :: g in groups ==> GroupFits(root, placeholderKey, imgs, g))
    // every image's parent directory has its group
    && (forall p :: p in imgs && Parent(p) != placeholderKey ==> DirGroup(Parent(p), imgs) in groups)
    // no image is lost or listed twice
    && multiset(Flatten(groups)) == multiset(imgs)
    // root-path groups first, then by lower-cased name
    && FoldersOrdered(root, groups)
    // non-root groups whose names tie stand in path order
    && TiesByPath(root, groups)
    // no group is listed twice
    && (forall g :: g in groups ==> multiset(groups)[g] == 1)
  }

  /** One slot's contents once the loop has seen the images `imgs`: the
      root group or a non-empty directory group, holding in walk order the
      images whose parent string is its key. */
  predicate SlotFits(root: string, placeholderKey: string, imgs: seq<string>, s: Slot)
  {
    if s.key == placeholderKey then
      s.folder == FolderImages(RootName(root), root, InDir(s.key, imgs))
    else
      s.folder == FolderImages(DirName(s.key), s.key, InDir(s.key, imgs)) && InDir(s.key, imgs) != []
  }

  predicate AllFit(root: string, placeholderKey: string, imgs: seq<string>, slots: seq<Slot>)
  {
    forall j :: 0 <= j < |slots| ==> SlotFits(root, placeholderKey, imgs, slots[j])
  }

  /** Every image seen has a slot for its parent. */
  predicate Covers(slots: seq<Slot>, imgs: seq<string>)
  {
    forall p :: p in imgs ==> HasKey(slots, Parent(p))
  }

  /** The loop invariant: the map in step with the images seen. */
  predicate Tracks(root: string, placeholderKey: string, imgs: seq<string>, slots: seq<Slot>)
  {
    && KeysIncreasing(slots)
    && HasKey(slots, placeholderKey)
    && Covers(slots, imgs)
    && AllFit(root, placeholderKey, imgs, slots)
    && multiset(SlotImages(slots)) == multiset(imgs)
  }

  /** Replacing one slot by one with the same key keeps the keys. */
  lemma UpdateKeepsKeys(slots: seq<Slot>, i: nat, s: Slot, next: seq<Slot>)
    requires i < |slots| && s.key == slots[i].key && next == slots[i := s]
    ensures KeysIncreasing(slots) ==> KeysIncreasing(next)
    ensures forall k :: HasKey(slots, k) ==> HasKey(next, k)
  {
    assert forall j :: 0 <= j < |next| ==> next[j].key == slots[j].key;
    forall k | HasKey(slots, k)
      ensures HasKey(next, k)
    {
      var j :| 0 <= j < |slots| && slots[j].key == k;
      assert next[j].key == k;
    }
  }

  lemma UpdateImages(slots: seq<Slot>, i: nat, s: Slot, next: seq<Slot>)
    requires i < |slots| && next == slots[i := s]
    ensures multiset(SlotImages(next)) + multiset(slots[i].folder.images)
            == multiset(SlotImages(slots)) + multiset(s.folder.images)
  {
    var before, after := slots[..i], slots[i + 1..];
    assert slots == before + [slots[i]] + after;
    assert next == before + [s] + after;
    SlotImagesConcat(before + [slots[i]], after);
    SlotImagesConcat(before, [slots[i]]);
    SlotImagesConcat(before + [s], after);
    SlotImagesConcat(before, [s]);
    assert SlotImages([slots[i]]) == slots[i].folder.images;
    assert SlotImages([s]) == s.folder.images;
  }

  /** Inserting a slot keeps the keys there were and adds its own. */
  lemma InsertKeepsKeys(slots: seq<Slot>, i: nat, s: Slot, next: seq<Slot>)
    requires i <= |slots| && next == slots[..i] + [s] + slots[i..]
    ensures HasKey(next, s.key)
    ensures forall k :: HasKey(slots, k) ==> HasKey(next, k)
  {
    assert next[i] == s;
    forall k | HasKey(slots, k)
      ensures HasKey(next, k)
    {
      var j :| 0 <= j < |slots| && slots[j].key == k;
      if j < i {
        assert next[j] == slots[j];
      } else {
        assert next[j + 1] == slots[j];
      }
    }
  }

  lemma InsertImages(slots: seq<Slot>, i: nat, s: Slot, next: seq<Slot>)
    requires i <= |slots| && next == slots[..i] + [s] + slots[i..]
    ensures multiset(SlotImages(next)) == multiset(SlotImages(slots)) + multiset(s.folder.images)
  {
    var before, after := slots[..i], slots[i..];
    assert slots == before + after;
    SlotImagesConcat(before, after);
    SlotImagesConcat(before + [s], after);
    SlotImagesConcat(before, [s]);
    assert SlotImages([s]) == s.folder.images;
  }

  /** A slot for another directory is not affected by image `p`. */
  lemma FitsUnaffected(root: string, placeholderKey: string, imgs: seq<string>, s: Slot, p: string)
    requires SlotFits(root, placeholderKey, imgs, s) && s.key != Parent(p)
    ensures SlotFits(root, placeholderKey, imgs + [p], s)
  {
    InDirAppend(s.key, imgs, p);
  }

  /** The slot for `p`'s parent fits once `p` is pushed onto it. */
  lemma FitsGrown(root: string, placeholderKey: string, imgs: seq<string>, s: Slot, p: string)
    requires SlotFits(root, placeholderKey, imgs, s) && s.key == Parent(p)
    ensures SlotFits(root, placeholderKey, imgs + [p], s.(folder := s.folder.(images := s.folder.images + [p])))
  {
    InDirAppend(s.key, imgs, p);
  }

  /** A new slot for `p`'s parent, holding just `p`, fits. */
  lemma FitsNew(root: string, placeholderKey: string, imgs: seq<string>, p: string)
    requires Parent(p) != placeholderKey && InDir(Parent(p), imgs) == []
    ensures SlotFits(root, placeholderKey, imgs + [p], Slot(Parent(p), FolderImages(DirName(Parent(p)), Parent(p), [p])))
  {
    InDirAppend(Parent(p), imgs, p);
  }

  /** Without a slot for `dir`, no image seen has `dir` as its parent. */
  lemma NoKeyNoImages(slots: seq<Slot>, imgs: seq<string>, dir: string)
    requires Covers(slots, imgs) && !HasKey(slots, dir)
    ensures InDir(dir, imgs) == []
  {
    InDirMembers(dir, imgs);
  }

  lemma CoversAfterPush(slots: seq<Slot>, next: seq<Slot>, imgs: seq<string>, p: string)
    requires Covers(slots, imgs)
    requires forall k :: HasKey(slots, k) ==> HasKey(next, k)
    requires HasKey(next, Parent(p))
    ensures Covers(next, imgs + [p])
  {
  }

  /** Pushing image `p` onto the slot `entry(Parent(p)).or_insert(..)`
      returned keeps the map in step with the images seen. */
  lemma PushKeepsTrack(root: string, placeholderKey: string, imgs: seq<string>, slots: seq<Slot>,
                       p: string, dir: string, default: FolderImages, updated: seq<Slot>, i: nat, next: seq<Slot>)
    requires Tracks(root, placeholderKey, imgs, slots)
    requires dir == Parent(p) && default == FolderImages(DirName(dir), dir, [])
    requires KeysIncreasing(updated) && i < |updated| && updated[i].key == dir
    requires HasKey(slots, dir) ==> updated == slots
    requires !HasKey(slots, dir) ==> i <= |slots| && updated == slots[..i] + [Slot(dir, default)] + slots[i..]
    requires next == updated[i := Slot(dir, updated[i].folder.(images := updated[i].folder.images + [p]))]
    ensures Tracks(root, placeholderKey, imgs + [p], next)
  {
    UpdateKeepsKeys(updated, i, next[i], next);
    if HasKey(slots, dir) {
      PushExisting(root, placeholderKey, imgs, slots, p, i, next);
    } else {
      var newSlot := Slot(dir, FolderImages(DirName(dir), dir, [p]));
      assert next[i] == newSlot by {
        assert updated[i] == Slot(dir, default);
        assert default.images + [p] == [p];
      }
      UpdateInserted(slots, i, Slot(dir, default), newSlot, updated, next);
      PushNew(root, placeholderKey, imgs, slots, p, i, newSlot, next);
    }
  }

  /** Pushing `p` onto the existing slot of its parent. */
  lemma PushExisting(root: string, placeholderKey: string, imgs: seq<string>, slots: seq<Slot>,
                     p: string, i: nat, next: seq<Slot>)
    requires Tracks(root, placeholderKey, imgs, slots)
    requires i < |slots| && slots[i].key == Parent(p)
    requires next == slots[i := Slot(Parent(p), slots[i].folder.(images := slots[i].folder.images + [p]))]
    ensures Tracks(root, placeholderKey, imgs + [p], next)
  {
    UpdateKeepsKeys(slots, i, next[i], next);
    UpdateImages(slots, i, next[i], next);
    assert multiset(next[i].folder.images) == multiset(slots[i].folder.images) + multiset{p};
    AllFitOnPush(root, placeholderKey, imgs, slots, p, i, next);
    assert HasKey(next, Parent(p)) by {
      assert next[i].key == Parent(p);
    }
    CoversAfterPush(slots, next, imgs, p);
    CancelImages(multiset(SlotImages(next)), multiset(slots[i].folder.images), multiset(imgs), p);
  }

  lemma CancelImages(n: multiset<string>, b: multiset<string>, a: multiset<string>, p: string)
    requires n + b == a + (b + multiset{p})
    ensures n == a + multiset{p}
  {
    forall x
      ensures n[x] == (a + multiset{p})[x]
    {
      assert (n + b)[x] == (a + (b + multiset{p}))[x];
    }
  }

  /** Inserting a new slot, holding just `p`, for a parent without one. */
  lemma PushNew(root: string, placeholderKey: string, imgs: seq<string>, slots: seq<Slot>,
                p: string, i: nat, newSlot: Slot, next: seq<Slot>)
    requires Tracks(root, placeholderKey, imgs, slots) && !HasKey(slots, Parent(p))
    requires newSlot == Slot(Parent(p), FolderImages(DirName(Parent(p)), Parent(p), [p]))
    requires i <= |slots| && next == slots[..i] + [newSlot] + slots[i..]
    requires KeysIncreasing(next)
    ensures Tracks(root, placeholderKey, imgs + [p], next)
  {
    InsertKeepsKeys(slots, i, newSlot, next);
    InsertImages(slots, i, newSlot, next);
    NoKeyNoImages(slots, imgs, Parent(p));
    FitsNew(root, placeholderKey, imgs, p);
    AllFitOnInsert(root, placeholderKey, imgs, slots, p, i, newSlot, next);
    CoversAfterPush(slots, next, imgs, p);
  }

  /** Replacing a slot just inserted is inserting the replacement. */
  lemma UpdateInserted(slots: seq<Slot>, i: nat, s: Slot, s': Slot, updated: seq<Slot>, next: seq<Slot>)
    requires i <= |slots| && updated == slots[..i] + [s] + slots[i..]
    requires next == updated[i := s']
    ensures next == slots[..i] + [s'] + slots[i..]
  {
  }

  lemma AllFitOnPush(root: string, placeholderKey: string, imgs: seq<string>, slots: seq<Slot>,
                     p: string, i: nat, next: seq<Slot>)
    requires AllFit(root, placeholderKey, imgs, slots) && KeysIncreasing(slots)
    requires i < |slots| && slots[i].key == Parent(p)
    requires next == slots[i := Slot(Parent(p), slots[i].folder.(images := slots[i].folder.images + [p]))]
    ensures AllFit(root, placeholderKey, imgs + [p], next)
  {
    KeysDistinct(slots);
    forall j | 0 <= j < |next|
      ensures SlotFits(root, placeholderKey, imgs + [p], next[j])
    {
      if j == i {
        FitsGrown(root, placeholderKey, imgs, slots[i], p);
      } else {
        FitsUnaffected(root, placeholderKey, imgs, slots[j], p);
      }
    }
  }

  lemma AllFitOnInsert(root: string, placeholderKey: string, imgs: seq<string>, slots: seq<Slot>,
                       p: string, i: nat, s: Slot, next: seq<Slot>)
    requires AllFit(root, placeholderKey, imgs, slots)
    requires s.key == Parent(p) && !HasKey(slots, s.key)
    requires SlotFits(root, placeholderKey, imgs + [p], s)
    requires i <= |slots| && next == slots[..i] + [s] + slots[i..]
    ensures AllFit(root, placeholderKey, imgs + [p], next)
  {
    forall j | 0 <= j < |next|
      ensures SlotFits(root, placeholderKey, imgs + [p], next[j])
    {
      if j < i {
        assert next[j] == slots[j];
        FitsUnaffected(root, placeholderKey, imgs, slots[j], p);
      } else if j > i {
        assert next[j] == slots[j - 1];
        FitsUnaffected(root, placeholderKey, imgs, slots[j - 1], p);
      }
    }
  }

  /** The groups of the map in key order, each group's images sorted. */
  function SortedGroups(slots: seq<Slot>): (groups: seq<FolderImages>)
  {
    seq(|slots|, j requires 0 <= j < |slots| =>
      slots[j].folder.(images := Strings.SortStrings(slots[j].folder.images)))
  }

  lemma {:induction false} SortedGroupsKeepImages(slots: seq<Slot>)
    ensures multiset(Flatten(SortedGroups(slots))) == multiset(SlotImages(slots))
  {
    if slots != [] {
      var init, last := slots[..|slots| - 1], slots[|slots| - 1];
      var g := last.folder.(images := Strings.SortStrings(last.folder.images));
      SortedGroupsSnoc(slots);
      FlattenSnoc(SortedGroups(init), g);
      SortedGroupsKeepImages(init);
    }
  }

  lemma SortedGroupsSnoc(slots: seq<Slot>)
    requires slots != []
    ensures SortedGroups(slots) == SortedGroups(slots[..|slots| - 1])
              + [slots[|slots| - 1].folder.(images := Strings.SortStrings(slots[|slots| - 1].folder.images))]
  {
  }

  /** The group a slot becomes once its images are sorted. */
  lemma SlotGroup(root: string, placeholderKey: string, imgs: seq<string>, slots: seq<Slot>, j: int)
    requires 0 <= j < |slots| && SlotFits(root, placeholderKey, imgs, slots[j])
    ensures slots[j].key == placeholderKey ==> SortedGroups(slots)[j] == RootGroup(root, placeholderKey, imgs)
    ensures slots[j].key != placeholderKey ==>
              SortedGroups(slots)[j] == DirGroup(slots[j].key, imgs) && slots[j].folder.path == slots[j].key
              && SortedGroups(slots)[j].images != []
  {
  }

  /** The map's non-root groups are in key order, and a non-root group's
      path is its key. */
  lemma SlotPathsAscending(root: string, placeholderKey: string, imgs: seq<string>, slots: seq<Slot>)
    requires Tracks(root, placeholderKey, imgs, slots)
    ensures PathsAscending(root, SortedGroups(slots))
  {
    var gs := SortedGroups(slots);
    forall i, j | 0 <= i < j < |gs| && gs[i].path != root && gs[j].path != root
      ensures Strings.Less(gs[i].path, gs[j].path)
    {
      SlotGroup(root, placeholderKey, imgs, slots, i);
      SlotGroup(root, placeholderKey, imgs, slots, j);
    }
  }

  /** No two slots of the map hold the same group: their keys differ, and
      the root group differs even from a group at the root path, which holds
      an image whose parent is not the placeholder key. */
  lemma SlotGroupsDistinct(root: string, placeholderKey: string, imgs: seq<string>, slots: seq<Slot>)
    requires Tracks(root, placeholderKey, imgs, slots)
    ensures forall i, j :: 0 <= i < j < |slots| ==> SortedGroups(slots)[i] != SortedGroups(slots)[j]
  {
    var gs := SortedGroups(slots);
    KeysDistinct(slots);
    forall i, j | 0 <= i < j < |slots|
      ensures gs[i] != gs[j]
    {
      SlotGroup(root, placeholderKey, imgs, slots, i);
      SlotGroup(root, placeholderKey, imgs, slots, j);
      if slots[i].key == placeholderKey {
        RootGroupNotDirGroup(root, placeholderKey, imgs, slots[j].key);
      } else if slots[j].key == placeholderKey {
        RootGroupNotDirGroup(root, placeholderKey, imgs, slots[i].key);
      }
    }
  }

  lemma RootGroupNotDirGroup(root: string, placeholderKey: string, imgs: seq<string>, dir: string)
    requires dir != placeholderKey && DirGroup(dir, imgs).images != []
    ensures RootGroup(root, placeholderKey, imgs) != DirGroup(dir, imgs)
  {
    if dir == root {
      var p := DirGroup(dir, imgs).images[0];
      SortedInDir(dir, imgs);
      SortedInDir(placeholderKey, imgs);
      assert p !in RootGroup(root, placeholderKey, imgs).images;
    }
  }

  /** Pairwise different elements each occur once. */
  lemma {:induction false} DistinctOnce(s: seq<FolderImages>)
    requires forall i, j :: 0 <= i < j < |s| ==> s[i] != s[j]
    ensures forall g :: g in s ==> multiset(s)[g] == 1
  {
    if s != [] {
      var init, last := s[..|s| - 1], s[|s| - 1];
      assert s == init + [last];
      DistinctOnce(init);
      assert last !in init by {
        forall k | 0 <= k < |init|
          ensures init[k] != last
        {
          assert s[k] == init[k];
        }
      }
    }
  }

  /** Once the walk is over, the map's groups, sorted, are what the scan
      promises. */
  lemma TrackedGroups(root: string, placeholderKey: string, imgs: seq<string>, slots: seq<Slot>)
    requires Tracks(root, placeholderKey, imgs, slots)
    ensures GroupedAsWalked(root, placeholderKey, imgs, SortFolders(root, SortedGroups(slots)))
  {
    var unordered := SortedGroups(slots);
    var groups := SortFolders(root, unordered);
    SortFoldersKeepsImages(root, unordered);
    SortedGroupsKeepImages(slots);
    forall j | 0 <= j < |slots|
      ensures unordered[j] in groups
      ensures GroupFits(root, placeholderKey, imgs, unordered[j])
    {
      SlotGroup(root, placeholderKey, imgs, slots, j);
      assert unordered[j] in multiset(groups);
    }
    SlotPathsAscending(root, placeholderKey, imgs, slots);
    SortFoldersKeepsTies(root, unordered);
    SlotGroupsDistinct(root, placeholderKey, imgs, slots);
    DistinctOnce(unordered);
    forall g | g in groups
      ensures GroupFits(root, placeholderKey, imgs, g)
      ensures multiset(groups)[g] == 1
    {
      assert g in multiset(unordered);
    }
    var r :| 0 <= r < |slots| && slots[r].key == placeholderKey;
    SlotGroup(root, placeholderKey, imgs, slots, r);
    forall p | p in imgs && Parent(p) != placeholderKey
      ensures DirGroup(Parent(p), imgs) in groups
    {
      var j :| 0 <= j < |slots| && slots[j].key == Parent(p);
      SlotGroup(root, placeholderKey, imgs, slots, j);
    }
  }

  /** Before the walk the map holds just the empty root group. */
  lemma StartTracks(root: string, placeholderKey: string)
    ensures Tracks(root, placeholderKey, [], [Slot(placeholderKey, FolderImages(RootName(root), root, []))])
  {
    var slots := [Slot(placeholderKey, FolderImages(RootName(root), root, []))];
    assert slots[0].key == placeholderKey;
    assert SlotImages(slots) == [];
  }

  lemma WalkedStep(walk: seq<WalkItem>, n: nat)
    requires n < |walk|
    ensures IsImageFile(walk[n]) ==> WalkedImages(walk[..n + 1]) == WalkedImages(walk[..n]) + [walk[n].path]
    ensures !IsImageFile(walk[n]) ==> WalkedImages(walk[..n + 1]) == WalkedImages(walk[..n])
  {
    assert walk[..n + 1][..n] == walk[..n];
    assert WalkedImages(walk[..n]) + [] == WalkedImages(walk[..n]);
  }

  /** `map.entry(parent).or_insert(..).images.push(path)`: the image joins
      its parent directory's group, which is created in key order if absent;
      the map stays in step with the images seen. */
  method PushImage(root: string, placeholderKey: string, ghost seen: seq<string>, slots: seq<Slot>, p: string)
    returns (next: seq<Slot>)
    requires Tracks(root, placeholderKey, seen, slots)
    ensures Tracks(root, placeholderKey, seen + [p], next)
  {
    var dir := Parent(p);
    var default := FolderImages(DirName(dir), dir, []);
    var updated, i := OrInsert(slots, dir, default);
    var folder := updated[i].folder;
    next := updated[i := Slot(dir, folder.(images := folder.images + [p]))];
    PushKeepsTrack(root, placeholderKey, seen, slots, p, dir, default, updated, i, next);
  }

  /** The walk loop, the map's conversion into a vector with each group's
      images sorted, and the final `sort_by`.  `placeholderKey` is the map key
      under which the root group is created before the walk. */
  method GroupImages(root: string, placeholderKey: string, walk: seq<WalkItem>) returns (groups: seq<FolderImages>)
    ensures GroupedAsWalked(root, placeholderKey, WalkedImages(walk), groups)
  {
    var slots := [Slot(placeholderKey, FolderImages(RootName(root), root, []))];
    StartTracks(root, placeholderKey);
    var n := 0;
    ghost var seen: seq<string> := [];
    while n < |walk|
      invariant 0 <= n <= |walk|
      invariant seen == WalkedImages(walk[..n])
      invariant Tracks(root, placeholderKey, seen, slots)
    {
      var item := walk[n];
      WalkedStep(walk, n);
      if IsImageFile(item) {
        slots := PushImage(root, placeholderKey, seen, slots, item.path);
        seen := seen + [item.path];
      }
      n := n + 1;
    }
    assert walk[..n] == walk;
    TrackedGroups(root, placeholderKey, seen, slots);
    groups := SortFolders(root, SortedGroups(slots));
  }

  /** `load_images_from_dir`: an error for a root that is missing or not a
      directory; otherwise the groups of the walk, the root group being
      keyed by the root's file name. */
  method LoadImagesFromDir(root: string, rootIsDir: bool, walk: seq<WalkItem>)
    returns (result: Result<seq<FolderImages>, string>)
    ensures result.Err? <==> !rootIsDir
    ensures result.Err? ==> result.error == UnavailableMessage
    ensures result.Ok? ==> GroupedAsWalked(root, RootName(root), WalkedImages(walk), result.value)
  {
    if !rootIsDir {
      return Err(UnavailableMessage);
    }
    var groups := GroupImages(root, RootName(root), walk);
    return Ok(groups);
  }

  /** Every listed path is an image the walk found, and each group's list
      is in ascending order. */
  lemma GroupedImagesAreWalkedImages(root: string, key: string, walk: seq<WalkItem>, groups: seq<FolderImages>)
    requires GroupedAsWalked(root, key, WalkedImages(walk), groups)
    ensures forall g, p :: g in groups && p in g.images ==> p in WalkedImages(walk) && IsImage(p)
    ensures forall g :: g in groups ==> Strings.Sorted(g.images)
    ensures |Flatten(groups)| == |WalkedImages(walk)|
  {
    var imgs := WalkedImages(walk);
    WalkedAreImages(walk);
    forall g, p | g in groups && p in g.images
      ensures p in imgs
    {
      InFlatten(groups, g, p);
      assert p in multiset(Flatten(groups));
    }
    GroupsSorted(root, key, imgs, groups);
    assert |multiset(Flatten(groups))| == |multiset(imgs)|;
  }

  lemma GroupsSorted(root: string, key: string, imgs: seq<string>, groups: seq<FolderImages>)
    requires forall g :: g in groups ==> GroupFits(root, key, imgs, g)
    ensures forall g :: g in groups ==> Strings.Sorted(g.images)
  {
  }

  /** An image of one of the groups is among the images of all groups. */
  lemma InFlatten(groups: seq<FolderImages>, g: FolderImages, p: string)
    requires g in groups && p in g.images
    ensures p in Flatten(groups)
  {
    var i :| 0 <= i < |groups| && groups[i] == g;
    assert groups == groups[..i] + [g] + groups[i + 1..];
    FlattenConcat(groups[..i] + [g], groups[i + 1..]);
    FlattenConcat(groups[..i], [g]);
    assert Flatten([g]) == g.images;
  }

  /** Images directly under an absolute root do not reach the root group:
      their parent string is the root path, not the root's file name, so a
      second group with the root's path holds them, beside the root group. */
  method RootImagesFormSecondGroup(root: string, walk: seq<WalkItem>, p: string) returns (groups: seq<FolderImages>)
    requires RootName(root) != root
    requires p in WalkedImages(walk) && Parent(p) == root
    ensures exists i, j :: 0 <= i < |groups| && 0 <= j < |groups| && i != j
              && groups[i].path == root && groups[j].path == root
              && groups[i].name == RootName(root) && p !in groups[i].images && p in groups[j].images
  {
    var result := LoadImagesFromDir(root, true, walk);
    groups := result.value;
    var imgs := WalkedImages(walk);
    var placeholder := RootGroup(root, RootName(root), imgs);
    var own := DirGroup(root, imgs);
    SortedInDir(root, imgs);
    SortedInDir(RootName(root), imgs);
    assert p in own.images && p !in placeholder.images;
    var i :| 0 <= i < |groups| && groups[i] == placeholder;
    var j :| 0 <= j < |groups| && groups[j] == own;
  }

  /** The intended scan: the root group is keyed by the root path, the
      string every image directly under the root has as its parent. */
  method LoadImagesFromDirKeyedByPath(root: string, rootIsDir: bool, walk: seq<WalkItem>)
    returns (result: Result<seq<FolderImages>, string>)
    ensures result.Err? <==> !rootIsDir
    ensures result.Err? ==> result.error == UnavailableMessage
    ensures result.Ok? ==> GroupedAsWalked(root, root, WalkedImages(walk), result.value)
    ensures result.Ok? ==> forall g :: g in result.value && g.path == root ==>
              g.name == RootName(root)
              && (forall p :: p in g.images <==> p in WalkedImages(walk) && Parent(p) == root)
  {
    if !rootIsDir {
      return Err(UnavailableMessage);
    }
    var groups := GroupImages(root, root, walk);
    RootGroupHoldsRootImages(root, WalkedImages(walk), groups);
    return Ok(groups);
  }

  /** Keyed by the root path, a group at the root path is the root group,
      and it holds exactly the images directly under the root. */
  lemma RootGroupHoldsRootImages(root: string, imgs: seq<string>, groups: seq<FolderImages>)
    requires GroupedAsWalked(root, root, imgs, groups)
    ensures forall g :: g in groups && g.path == root ==>
              g.name == RootName(root)
              && (forall p :: p in g.images <==> p in imgs && Parent(p) == root)
  {
    forall g | g in groups && g.path == root
      ensures g.name == RootName(root)
      ensures forall p :: p in g.images <==> p in imgs && Parent(p) == root
    {
      assert GroupFits(root, root, imgs, g);
      SortedInDir(root, imgs);
    }
  }

  /** Keyed by the root path, the scan has a single root-path group, so the
      group order is fully determined. */
  lemma OneRootPathGroup(root: string, imgs: seq<string>, groups: seq<FolderImages>)
    requires GroupedAsWalked(root, root, imgs, groups)
    ensures forall i, j :: 0 <= i < j < |groups| && groups[i].path == root ==> groups[j].path != root
  {
    forall i, j | 0 <= i < j < |groups| && groups[i].path == root
      ensures groups[j].path != root
    {
      OnceApart(groups, i, j);
      assert GroupFits(root, root, imgs, groups[i]) && GroupFits(root, root, imgs, groups[j]);
    }
  }

  /** An element that occurs once is found at no second position. */
  lemma OnceApart(s: seq<FolderImages>, i: int, j: int)
    requires 0 <= i < j < |s| && multiset(s)[s[i]] == 1
    ensures s[i] != s[j]
  {
    assert s == s[..j] + [s[j]] + s[j + 1..];
    assert s[i] in s[..j];
  }

  /** Sorting the images in a directory keeps exactly them. */
  lemma SortedInDir(dir: string, imgs: seq<string>)
    ensures forall p :: p in Strings.SortStrings(InDir(dir, imgs)) <==> p in imgs && Parent(p) == dir
  {
    InDirMembers(dir, imgs);
    var sorted := Strings.SortStrings(InDir(dir, imgs));
    forall p
      ensures p in sorted <==> p in InDir(dir, imgs)
    {
      assert p in sorted <==> p in multiset(sorted);
    }
  }
}
