/**
 * The part of Rust's std::path that the loader and the navigator rely on:
 * a path as its sequence of components, `parent`, `file_name`, `extension`,
 * and the component-wise order that `Vec<PathBuf>::sort` uses.
 */
module Paths {
  import opened Wrappers

  /**
   * A component of a path.  Rust's enum also has `Prefix` (Windows drive
   * prefixes) and `CurDir` (a leading `.`); paths here have neither.  The
   * constructors are listed in the enum's declaration order, which is the
   * order `Ord` gives them.
   */
  datatype Component = RootDir | ParentDir | Normal(name: string)

  /** A path, as Rust compares it: the sequence of its components. */
  datatype Path = Path(components: seq<Component>)

  /** `Path::parent`: drop the last component; none for the root and for the empty path. */
  function Parent(p: Path): (r: Option<Path>)
    ensures r.None? <==> p.components == [] || p.components[|p.components| - 1] == RootDir
    ensures r.Some? ==> r.value.components + [p.components[|p.components| - 1]] == p.components
  {
    var n := |p.components|;
    if n == 0 || p.components[n - 1] == RootDir then None
    else Some(Path(p.components[..n - 1]))
  }

  /** `Path::file_name`: the last component when it is a normal name. */
  function FileName(p: Path): Option<string>
  {
    var n := |p.components|;
    if n > 0 && p.components[n - 1].Normal? then Some(p.components[n - 1].name) else None
  }

  /** Index of the last '.' in `s`, if any. */
  function LastDot(s: string): (r: Option<nat>)
    ensures r.Some? ==> r.value < |s| && s[r.value] == '.' && '.' !in s[r.value + 1..]
    ensures r.None? ==> '.' !in s
  {
    if s == [] then None
    else if s[|s| - 1] == '.' then Some(|s| - 1)
    else
      assert s == s[..|s| - 1] + [s[|s| - 1]];
      LastDot(s[..|s| - 1])
  }

  /**
   * The extension of a file name, as `rsplit_file_at_dot` followed by
   * `before.and(after)` computes it: the text after the last dot, unless the
   * name is "..", has no dot, or its only dot-free stem would be empty.
   */
  function NameExtension(name: string): Option<string>
  {
    if name == ".." then None
    else match LastDot(name)
      case None => None
      case Some(i) => if i == 0 then None else Some(name[i + 1..])
  }

  /** `Path::extension`. */
  function Extension(p: Path): Option<string>
  {
    match FileName(p)
    case None => None
    case Some(name) => NameExtension(name)
  }

  /**
   * A name "stem.ext" with a non-empty stem and a dot-free ext has extension
   * ext; a name without a dot, or whose only dot is its first character, has
   * none.
   */
  lemma NameExtensionSplits(stem: string, ext: string)
    requires stem != [] && '.' !in ext && stem + "." + ext != ".."
    ensures NameExtension(stem + "." + ext) == Some(ext)
  {
    var name := stem + "." + ext;
    var i := |stem|;
    assert name[i] == '.';
    assert name[i + 1..] == ext;
  }

  lemma NameWithoutStemHasNoExtension(name: string)
    requires '.' !in name || (name != [] && name[0] == '.' && '.' !in name[1..])
    ensures NameExtension(name) == None
  {
  }

  function LowerChar(c: char): char
  {
    if 'A' <= c <= 'Z' then (c as int + 32) as char else c
  }

  /**
   * `str::to_lowercase` restricted to ASCII.  No character outside ASCII
   * lowercases to one of the letters of the extensions this program
   * recognises, so membership in those sets comes out the same.
   */
  function LowerAscii(s: string): (r: string)
    ensures |r| == |s|
    ensures forall i :: 0 <= i < |r| ==> !('A' <= r[i] <= 'Z')
    ensures forall i :: 0 <= i < |s| && !('A' <= s[i] <= 'Z') ==> r[i] == s[i]
    ensures forall i :: 0 <= i < |s| && 'A' <= s[i] <= 'Z' ==>
      'a' <= r[i] <= 'z' && r[i] as int - 'a' as int == s[i] as int - 'A' as int
  {
    seq(|s|, i requires 0 <= i < |s| => LowerChar(s[i]))
  }

  /** Lowercasing a lowercased string changes nothing. */
  lemma LowerAsciiIdempotent(s: string)
    ensures LowerAscii(LowerAscii(s)) == LowerAscii(s)
  {
  }

  // ---------------------------------------------------------------------
  // The order of paths (`impl Ord for Path`): lexicographic over the
  // components; components by enum position, names by their UTF-8 bytes,
  // which is the order of their code points.
  // ---------------------------------------------------------------------

  predicate StringLess(a: string, b: string)
  {
    |b| > 0 && (|a| == 0 || a[0] < b[0] || (a[0] == b[0] && StringLess(a[1..], b[1..])))
  }

  function Rank(c: Component): nat
  {
    match c
    case RootDir => 0
    case ParentDir => 1
    case Normal(_) => 2
  }

  predicate ComponentLess(a: Component, b: Component)
  {
    Rank(a) < Rank(b) || (a.Normal? && b.Normal? && StringLess(a.name, b.name))
  }

  predicate ComponentsLess(a: seq<Component>, b: seq<Component>)
  {
    |b| > 0 && (|a| == 0 || ComponentLess(a[0], b[0]) || (a[0] == b[0] && ComponentsLess(a[1..], b[1..])))
  }

  /** `p <= q` for paths. */
  predicate PathLe(p: Path, q: Path)
  {
    p == q || ComponentsLess(p.components, q.components)
  }

  lemma {:induction false} StringLessTrichotomy(a: string, b: string)
    ensures a == b || StringLess(a, b) || StringLess(b, a)
    ensures !(StringLess(a, b) && StringLess(b, a))
  {
    if |a| > 0 && |b| > 0 {
      StringLessTrichotomy(a[1..], b[1..]);
      if a[0] == b[0] && a[1..] == b[1..] {
        assert a == [a[0]] + a[1..] && b == [b[0]] + b[1..];
      }
    }
  }

  lemma {:induction false} StringLessTransitive(a: string, b: string, c: string)
    requires StringLess(a, b) && StringLess(b, c)
    ensures StringLess(a, c)
  {
    if |a| > 0 && a[0] == b[0] && b[0] == c[0] {
      StringLessTransitive(a[1..], b[1..], c[1..]);
    }
  }

  lemma ComponentLessTrichotomy(a: Component, b: Component)
    ensures a == b || ComponentLess(a, b) || ComponentLess(b, a)
    ensures !(ComponentLess(a, b) && ComponentLess(b, a))
  {
    if a.Normal? && b.Normal? {
      StringLessTrichotomy(a.name, b.name);
    }
  }

  lemma ComponentLessTransitive(a: Component, b: Component, c: Component)
    requires ComponentLess(a, b) && ComponentLess(b, c)
    ensures ComponentLess(a, c)
  {
    if a.Normal? && b.Normal? && c.Normal? {
      StringLessTransitive(a.name, b.name, c.name);
    }
  }

  lemma {:induction false} ComponentsLessTrichotomy(a: seq<Component>, b: seq<Component>)
    ensures a == b || ComponentsLess(a, b) || ComponentsLess(b, a)
    ensures !(ComponentsLess(a, b) && ComponentsLess(b, a))
  {
    if |a| > 0 && |b| > 0 {
      ComponentLessTrichotomy(a[0], b[0]);
      ComponentsLessTrichotomy(a[1..], b[1..]);
      if a[0] == b[0] && a[1..] == b[1..] {
        assert a == [a[0]] + a[1..] && b == [b[0]] + b[1..];
      }
    }
  }

  lemma {:induction false} ComponentsLessTransitive(a: seq<Component>, b: seq<Component>, c: seq<Component>)
    requires ComponentsLess(a, b) && ComponentsLess(b, c)
    ensures ComponentsLess(a, c)
  {
    if |a| > 0 {
      if ComponentLess(a[0], b[0]) && ComponentLess(b[0], c[0]) {
        ComponentLessTransitive(a[0], b[0], c[0]);
      } else if a[0] == b[0] && b[0] == c[0] {
        ComponentsLessTransitive(a[1..], b[1..], c[1..]);
      }
    }
  }

  /** `PathLe` is a total order: total, antisymmetric and transitive. */
  lemma PathLeTotal(p: Path, q: Path)
    ensures PathLe(p, q) || PathLe(q, p)
  {
    ComponentsLessTrichotomy(p.components, q.components);
  }

  lemma PathLeAntisymmetric(p: Path, q: Path)
    requires PathLe(p, q) && PathLe(q, p)
    ensures p == q
  {
    ComponentsLessTrichotomy(p.components, q.components);
  }

  lemma PathLeTransitive(p: Path, q: Path, r: Path)
    requires PathLe(p, q) && PathLe(q, r)
    ensures PathLe(p, r)
  {
    if p != q && q != r {
      ComponentsLessTransitive(p.components, q.components, r.components);
    }
  }
}
