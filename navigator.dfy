/**
 * The navigator: the path being shown and the sorted list of image files
 * in its directory, with lookups of the next and previous image.  The
 * directory listing is an input (the entries `read_dir` yields, each with
 * the answer of `is_file`), so the rebuild rule is stated in full.
 */
module Navigation {
  import opened Wrappers
  import opened Paths

  const IMAGE_EXTENSIONS: set<string> := {"jpg", "jpeg", "png", "nef", "cr2", "dng", "arw"}

  /** A directory entry: its path (the directory joined with the entry's name) and whether it is a file. */
  datatype DirEntry = DirEntry(path: Path, isFile: bool)

  /** An entry the list keeps: a file whose extension, lowercased, is one of the image extensions. */
  predicate IsListedImage(e: DirEntry)
  {
    e.isFile && Extension(e.path).Some? && LowerAscii(Extension(e.path).value) in IMAGE_EXTENSIONS
  }

  /** The paths of the kept entries, in listing order (the `push` loop). */
  function ImageFiles(entries: seq<DirEntry>): (r: seq<Path>)
    ensures |r| <= |entries|
    ensures forall i :: 0 <= i < |entries| && IsListedImage(entries[i]) ==> entries[i].path in r
    ensures forall p :: p in r ==> exists i :: 0 <= i < |entries| && IsListedImage(entries[i]) && entries[i].path == p
  {
    if entries == [] then []
    else
      var init, last := entries[..|entries| - 1], entries[|entries| - 1];
      assert forall i :: 0 <= i < |init| ==> init[i] == entries[i];
      ImageFiles(init) + (if IsListedImage(last) then [last.path] else [])
  }

  /** The kept paths of a listing; a directory that cannot be read yields none. */
  function ListedImages(listing: Option<seq<DirEntry>>): seq<Path>
  {
    match listing
    case None => []
    case Some(entries) => ImageFiles(entries)
  }

  /** Ascending in the order of paths. */
  ghost predicate Sorted(s: seq<Path>)
  {
    forall i, j :: 0 <= i < j < |s| ==> PathLe(s[i], s[j])
  }

  predicate NoDuplicates(s: seq<Path>)
  {
    forall i, j :: 0 <= i < j < |s| ==> s[i] != s[j]
  }

  /** Index i holds p and no earlier index does. */
  predicate FirstAt(list: seq<Path>, p: Path, i: nat)
  {
    i < |list| && list[i] == p && forall j :: 0 <= j < i ==> list[j] != p
  }

  /** The scan of `iter().position` from index k on, with no p before k. */
  function PositionFrom(list: seq<Path>, p: Path, k: nat): (r: Option<nat>)
    requires k <= |list| && forall j :: 0 <= j < k ==> list[j] != p
    ensures r.None? ==> forall j :: 0 <= j < |list| ==> list[j] != p
    ensures r.Some? ==> FirstAt(list, p, r.value)
    decreases |list| - k
  {
    if k == |list| then None
    else if list[k] == p then Some(k)
    else PositionFrom(list, p, k + 1)
  }

  /** `iter().position`: the index of the first occurrence of p. */
  function Position(list: seq<Path>, p: Path): (r: Option<nat>)
    ensures r.None? <==> p !in list
    ensures r.Some? ==> FirstAt(list, p, r.value)
    ensures forall i: nat :: FirstAt(list, p, i) ==> r == Some(i)
  {
    PositionFrom(list, p, 0)
  }

  /**
   * `get_next_image` as a lookup: the element after the first occurrence
   * of the current path; none when there is no current path, when it is not
   * in the list, or when it is the last element.
   */
  function NextImage(list: seq<Path>, current: Option<Path>): (r: Option<Path>)
    ensures current.None? ==> r.None?
    ensures current.Some? && current.value !in list ==> r.None?
    ensures forall i: nat :: current.Some? && FirstAt(list, current.value, i) ==>
      r == if i + 1 < |list| then Some(list[i + 1]) else None
  {
    match current
    case None => None
    case Some(cur) =>
      match Position(list, cur)
      case None => None
      case Some(pos) => if pos + 1 < |list| then Some(list[pos + 1]) else None
  }

  /**
   * `get_prev_image` as a lookup: the element before the first occurrence
   * of the current path; none when there is no current path, when it is not
   * in the list, or when it is the first element.
   */
  function PrevImage(list: seq<Path>, current: Option<Path>): (r: Option<Path>)
    ensures current.None? ==> r.None?
    ensures current.Some? && current.value !in list ==> r.None?
    ensures forall i: nat :: current.Some? && FirstAt(list, current.value, i) ==>
      r == if i > 0 then Some(list[i - 1]) else None
  {
    match current
    case None => None
    case Some(cur) =>
      match Position(list, cur)
      case None => None
      case Some(pos) => if pos > 0 then Some(list[pos - 1]) else None
  }

  lemma NotBefore(list: seq<Path>, i: nat)
    requires NoDuplicates(list) && i < |list|
    ensures FirstAt(list, list[i], i)
  {
  }

  /**
   * In a list without duplicates, stepping forward from p to q and stepping
   * back from q to p are the same fact.
   */
  lemma NextPrevInverse(list: seq<Path>, p: Path, q: Path)
    requires NoDuplicates(list)
    ensures NextImage(list, Some(p)) == Some(q) <==> PrevImage(list, Some(q)) == Some(p)
  {
    if NextImage(list, Some(p)) == Some(q) {
      var i := Position(list, p).value;
      NotBefore(list, i + 1);
      assert list[i + 1] == q;
    }
    if PrevImage(list, Some(q)) == Some(p) {
      var j := Position(list, q).value;
      NotBefore(list, j - 1);
      assert list[j - 1] == p;
    }
  }

  lemma SortedHeadIsLeast(s: seq<Path>, x: Path)
    requires Sorted(s) && x in multiset(s)
    ensures PathLe(s[0], x)
  {
    var i :| 0 <= i < |s| && s[i] == x;
    if i > 0 {
      assert PathLe(s[0], s[i]);
    }
  }

  lemma TailsSameMultiset(s: seq<Path>, t: seq<Path>)
    requires s != [] && t != [] && s[0] == t[0] && multiset(s) == multiset(t)
    ensures multiset(s[1..]) == multiset(t[1..])
  {
    assert s == [s[0]] + s[1..];
    assert t == [t[0]] + t[1..];
    forall x
      ensures multiset(s[1..])[x] == multiset(t[1..])[x]
    {
      assert (multiset{s[0]} + multiset(s[1..]))[x] == (multiset{t[0]} + multiset(t[1..]))[x];
    }
  }

  /** Two sorted arrangements of the same paths are equal: the rebuilt list is determined by the listing. */
  lemma {:induction false} SortedPermutationUnique(s: seq<Path>, t: seq<Path>)
    requires Sorted(s) && Sorted(t) && multiset(s) == multiset(t)
    ensures s == t
  {
    if s != [] {
      assert |t| == |multiset(t)| == |multiset(s)| == |s|;
      assert s[0] in multiset(s) && t[0] in multiset(t);
      SortedHeadIsLeast(s, t[0]);
      SortedHeadIsLeast(t, s[0]);
      PathLeAntisymmetric(s[0], t[0]);
      TailsSameMultiset(s, t);
      SortedPermutationUnique(s[1..], t[1..]);
    }
  }

  /** Within a[..i + 1], every pair not involving position j is in order. */
  ghost predicate SortedExcept(s: seq<Path>, i: nat, j: nat)
    requires i < |s|
  {
    forall p, q :: 0 <= p < q <= i && p != j && q != j ==> PathLe(s[p], s[q])
  }

  /** Within a[..i + 1], the element at j is at most everything after it. */
  ghost predicate LeastFrom(s: seq<Path>, i: nat, j: nat)
    requires j <= i < |s|
  {
    forall q :: j < q <= i ==> PathLe(s[j], s[q])
  }

  /** Swapping an out-of-order element one place down keeps both facts, one place lower. */
  lemma SwapDown(s: seq<Path>, i: nat, j: nat)
    requires 0 < j <= i < |s|
    requires SortedExcept(s, i, j) && LeastFrom(s, i, j) && !PathLe(s[j - 1], s[j])
    ensures var t := s[j - 1 := s[j]][j := s[j - 1]];
      SortedExcept(t, i, j - 1) && LeastFrom(t, i, j - 1) &&
      multiset(t) == multiset(s) && t[i + 1..] == s[i + 1..]
  {
    var t := s[j - 1 := s[j]][j := s[j - 1]];
    PathLeTotal(s[j - 1], s[j]);
    assert SortedExcept(t, i, j - 1);
    assert LeastFrom(t, i, j - 1);
    assert t[i + 1..] == s[i + 1..];
  }

  /** Once the element at j is in order with its predecessor, the whole of a[..i + 1] is sorted. */
  lemma InsertDone(s: seq<Path>, i: nat, j: nat)
    requires j <= i < |s|
    requires SortedExcept(s, i, j) && LeastFrom(s, i, j) && (j == 0 || PathLe(s[j - 1], s[j]))
    ensures forall p, q :: 0 <= p < q <= i ==> PathLe(s[p], s[q])
  {
    forall p, q | 0 <= p < q <= i
      ensures PathLe(s[p], s[q])
    {
      if q == j && p < j - 1 {
        PathLeTransitive(s[p], s[j - 1], s[j]);
      }
    }
  }

  /**
   * One step of the insertion sort: with a[..i] sorted, a[i] is swapped
   * down to its place, leaving a[..i + 1] sorted, the contents permuted and
   * everything after position i untouched.
   */
  method InsertAt(a: array<Path>, i: nat)
    requires i < a.Length
    requires forall p, q :: 0 <= p < q < i ==> PathLe(a[p], a[q])
    modifies a
    ensures forall p, q :: 0 <= p < q <= i ==> PathLe(a[p], a[q])
    ensures multiset(a[..]) == multiset(old(a[..]))
    ensures a[i + 1..] == old(a[i + 1..])
  {
    var j := i;
    while j > 0 && !PathLe(a[j - 1], a[j])
      invariant 0 <= j <= i
      invariant SortedExcept(a[..], i, j) && LeastFrom(a[..], i, j)
      invariant multiset(a[..]) == multiset(old(a[..]))
      invariant a[i + 1..] == old(a[i + 1..])
    {
      ghost var s := a[..];
      SwapDown(s, i, j);
      a[j - 1], a[j] := a[j], a[j - 1];
      assert a[..] == s[j - 1 := s[j]][j := s[j - 1]];
      j := j - 1;
    }
    InsertDone(a[..], i, j);
  }

  /** `Vec::sort` on the collected paths: an insertion sort in place, ascending, a permutation. */
  method SortPaths(a: array<Path>)
    modifies a
    ensures Sorted(a[..])
    ensures multiset(a[..]) == multiset(old(a[..]))
  {
    var i := 0;
    while i < a.Length
      invariant 0 <= i <= a.Length
      invariant forall p, q :: 0 <= p < q < i ==> PathLe(a[p], a[q])
      invariant multiset(a[..]) == multiset(old(a[..]))
    {
      InsertAt(a, i);
      i := i + 1;
    }
  }

  /**
   * Whether `update_file_list` rebuilds: the path has a parent, and the list
   * is empty or its first element's parent differs from it.
   */
  predicate NeedsRebuild(list: seq<Path>, path: Path)
  {
    Parent(path).Some? && (list == [] || Parent(list[0]) != Parent(path))
  }

  /** Every file the listing reports with an image extension ends up in a list holding the listed images. */
  lemma ListedEntryIsKept(listing: Option<seq<DirEntry>>, list: seq<Path>, e: DirEntry)
    requires multiset(list) == multiset(ListedImages(listing))
    requires listing.Some? && e in listing.value && IsListedImage(e)
    ensures e.path in list
  {
    assert e.path in ListedImages(listing);
    assert e.path in multiset(list);
  }

  class Navigator {
    var currentPath: Option<Path>
    var imageList: seq<Path>

    /** `Navigator::new`: no current path, no images. */
    constructor ()
      ensures currentPath == None && imageList == []
    {
      currentPath := None;
      imageList := [];
    }

    /** `get_next_image`: reads the fields and changes nothing. */
    function GetNextImage(): Option<Path>
      reads this
    {
      NextImage(imageList, currentPath)
    }

    /** `get_prev_image`: reads the fields and changes nothing. */
    function GetPrevImage(): Option<Path>
      reads this
    {
      PrevImage(imageList, currentPath)
    }

    /**
     * `update_file_list`, with `listing` standing for what `read_dir` of the
     * path's parent yields (`None` when the directory cannot be read).  The
     * current path is always set; when the path has a parent and the list is
     * empty or lies in another directory, the list becomes the sorted image
     * files of the listing; otherwise it is unchanged.
     */
    method UpdateFileList(path: Path, listing: Option<seq<DirEntry>>)
      modifies this
      ensures currentPath == Some(path)
      ensures !NeedsRebuild(old(imageList), path) ==> imageList == old(imageList)
      ensures NeedsRebuild(old(imageList), path) ==>
        Sorted(imageList) && multiset(imageList) == multiset(ListedImages(listing))
    {
      currentPath := Some(path);

      var parent := Parent(path);
      if parent.None? {
        return;
      }

      var needsUpdate := if |imageList| > 0 then Parent(imageList[0]) != parent else true;

      if needsUpdate {
        var list: seq<Path> := [];
        if listing.Some? {
          var entries := listing.value;
          var i := 0;
          while i < |entries|
            invariant 0 <= i <= |entries|
            invariant list == ImageFiles(entries[..i])
          {
            var entry := entries[i];
            assert entries[..i + 1] == entries[..i] + [entry];
            if entry.isFile {
              var ext := Extension(entry.path);
              if ext.Some? {
                var lower := LowerAscii(ext.value);
                if lower in IMAGE_EXTENSIONS {
                  list := list + [entry.path];
                }
              }
            }
            i := i + 1;
          }
          assert entries[..|entries|] == entries;
        }
        var sorted := new Path[|list|](k requires 0 <= k < |list| => list[k]);
        assert sorted[..] == list;
        SortPaths(sorted);
        imageList := sorted[..];
      }
    }
  }

  /** The repository's navigation test: a.jpg, b.jpg, c.jpg stepped through forwards and backwards. */
  method NavigationScenario()
  {
    var nav := new Navigator();
    var p1 := Path([Normal("a.jpg")]);
    var p2 := Path([Normal("b.jpg")]);
    var p3 := Path([Normal("c.jpg")]);
    nav.imageList := [p1, p2, p3];
    assert NoDuplicates(nav.imageList);

    nav.currentPath := Some(p1);
    assert nav.GetNextImage() == Some(p2);
    nav.currentPath := Some(p2);
    assert nav.GetNextImage() == Some(p3);
    nav.currentPath := Some(p3);
    assert nav.GetNextImage() == None;

    nav.currentPath := Some(p3);
    assert nav.GetPrevImage() == Some(p2);
    nav.currentPath := Some(p2);
    assert nav.GetPrevImage() == Some(p1);
    nav.currentPath := Some(p1);
    assert nav.GetPrevImage() == None;
  }
}
