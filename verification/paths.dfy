/** Unix paths as Rust's `std::path` sees them. A `PathBuf` is a raw string, but equality,
    ordering and `strip_prefix` go by its sequence of components, so the model works with
    `Path = seq<Component>` and keeps raw strings only where they are printed. */
module Paths {
  import opened Outcomes
  import opened Text
  import opened Order

  /** `std::path::Component` on Unix, declared in the order Rust derives for it. */
  datatype Component = RootDir | CurDir | ParentDir | Normal(name: string)

  type Path = seq<Component>

  /** A name that can stand as a `Normal` component. */
  predicate ValidName(n: string) {
    n != "" && n != "." && n != ".." && '/' !in n
  }

  /** A component that may appear after the first position. */
  predicate IsNamePart(c: Component) {
    c == ParentDir || (c.Normal? && ValidName(c.name))
  }

  /** Shape of every component sequence `Path::components` yields: `RootDir` and `CurDir`
      only in front, and `Normal` names that are non-empty, separator-free and not dots. */
  predicate WellFormed(p: Path) {
    forall i :: 0 <= i < |p| ==> (i == 0 && (p[i] == RootDir || p[i] == CurDir)) || IsNamePart(p[i])
  }

  /** One `/`-separated piece of a path body: empty pieces and `.` vanish. */
  function Segment(x: string): (p: Path)
    requires '/' !in x
    ensures forall i :: 0 <= i < |p| ==> IsNamePart(p[i])
  {
    if x == "" || x == "." then [] else if x == ".." then [ParentDir] else [Normal(x)]
  }

  function Body(segs: seq<string>): (p: Path)
    requires forall i :: 0 <= i < |segs| ==> '/' !in segs[i]
    ensures forall i :: 0 <= i < |p| ==> IsNamePart(p[i])
    decreases |segs|
  {
    if |segs| == 0 then []
    else
      var head := Segment(segs[0]);
      var tail := Body(segs[1..]);
      assert forall i :: |head| <= i < |head| + |tail| ==> (head + tail)[i] == tail[i - |head|];
      head + tail
  }

  lemma {:induction false} BodyConcat(a: seq<string>, b: seq<string>)
    requires forall i :: 0 <= i < |a| ==> '/' !in a[i]
    requires forall i :: 0 <= i < |b| ==> '/' !in b[i]
    ensures Body(a + b) == Body(a) + Body(b)
    decreases |a|
  {
    if |a| > 0 {
      assert (a + b)[1..] == a[1..] + b;
      BodyConcat(a[1..], b);
    } else {
      assert a + b == b;
    }
  }

  /** `Path::components()`: a leading `/` is `RootDir`; a leading `.` piece of a relative
      path is `CurDir`; later, empty and `.` pieces are skipped and `..` is `ParentDir`. */
  function Parse(s: string): (p: Path)
    ensures WellFormed(p)
    ensures |p| == 0 <==> |s| == 0
    ensures |s| > 0 && s[0] == '/' ==> p[0] == RootDir
    ensures |s| > 0 && s[0] != '/' ==> p[0] != RootDir
  {
    if |s| == 0 then []
    else if s[0] == '/' then [RootDir] + Body(Split(s, '/')[1..])
    else
      var segs := Split(s, '/');
      SplitHeadNonEmpty(s, '/');
      if segs[0] == "." then [CurDir] + Body(segs[1..])
      else
        assert Body(segs) == Segment(segs[0]) + Body(segs[1..]);
        Body(segs)
  }

  /** `PathBuf::push` on the raw buffer: an absolute argument replaces the buffer, otherwise a
      separator is added unless the buffer is empty or already ends in one. */
  function PushStr(buf: string, s: string): string {
    if |s| > 0 && s[0] == '/' then s
    else if |buf| == 0 || buf[|buf| - 1] == '/' then buf + s
    else buf + "/" + s
  }

  /** A leading `CurDir` is not at the front any more once something precedes it. */
  function DropCur(p: Path): Path {
    if |p| > 0 && p[0] == CurDir then p[1..] else p
  }

  /** `base.join(rest)` on components. */
  function Join(base: Path, rest: Path): Path {
    if |rest| > 0 && rest[0] == RootDir then rest
    else if |base| == 0 then rest
    else base + DropCur(rest)
  }

  lemma {:induction false} ParseRelative(b: string)
    requires |b| == 0 || b[0] != '/'
    ensures DropCur(Parse(b)) == Body(Split(b, '/'))
  {
    var segs := Split(b, '/');
    assert Body(segs) == Segment(segs[0]) + Body(segs[1..]);
  }

  lemma {:induction false} ParseAroundSeparator(x: string, b: string)
    requires |x| > 0
    ensures Parse(x + "/" + b) == Parse(x) + Body(Split(b, '/'))
  {
    var s := x + "/" + b;
    SplitConcat(x, b, '/');
    assert s[0] == x[0];
    if x[0] == '/' {
      ParseAroundSeparatorRooted(x, b);
    } else {
      ParseAroundSeparatorRelative(x, b);
    }
  }

  lemma {:induction false} ParseAroundSeparatorRooted(x: string, b: string)
    requires |x| > 0 && x[0] == '/'
    ensures Parse(x + "/" + b) == Parse(x) + Body(Split(b, '/'))
  {
    var s := x + "/" + b;
    SplitConcat(x, b, '/');
    var sx := Split(x, '/');
    var sb := Split(b, '/');
    assert s[0] == x[0];
    assert Split(s, '/')[1..] == sx[1..] + sb;
    BodyConcat(sx[1..], sb);
  }

  lemma {:induction false} ParseAroundSeparatorRelative(x: string, b: string)
    requires |x| > 0 && x[0] != '/'
    ensures Parse(x + "/" + b) == Parse(x) + Body(Split(b, '/'))
  {
    var s := x + "/" + b;
    SplitConcat(x, b, '/');
    assert s[0] == x[0];
    assert Split(s, '/')[0] == Split(x, '/')[0];
    if Split(x, '/')[0] == "." {
      RelativeDotted(x, b);
    } else {
      RelativePlain(x, b);
    }
  }

  lemma {:induction false} RelativeDotted(x: string, b: string)
    requires |x| > 0 && x[0] != '/' && Split(x, '/')[0] == "."
    requires Split(x + "/" + b, '/') == Split(x, '/') + Split(b, '/')
    ensures Parse(x + "/" + b) == Parse(x) + Body(Split(b, '/'))
  {
    var s := x + "/" + b;
    var sx := Split(x, '/');
    var sb := Split(b, '/');
    ConcatTail(sx, sb);
    ParseDotted(x);
    ParseDotted(s);
    BodyConcat(sx[1..], sb);
  }

  lemma ConcatTail<T>(a: seq<T>, b: seq<T>)
    requires |a| > 0
    ensures (a + b)[0] == a[0] && (a + b)[1..] == a[1..] + b
  {
  }

  /** A relative path whose first piece is `.` starts with `CurDir`. */
  lemma ParseDotted(s: string)
    requires |s| > 0 && s[0] != '/' && Split(s, '/')[0] == "."
    ensures Parse(s) == [CurDir] + Body(Split(s, '/')[1..])
  {
  }

  lemma {:induction false} RelativePlain(x: string, b: string)
    requires |x| > 0 && x[0] != '/' && Split(x, '/')[0] != "."
    requires Split(x + "/" + b, '/') == Split(x, '/') + Split(b, '/')
    ensures Parse(x + "/" + b) == Parse(x) + Body(Split(b, '/'))
  {
    var s := x + "/" + b;
    assert s[0] == x[0];
    BodyConcat(Split(x, '/'), Split(b, '/'));
  }

  /** Pushing onto a buffer and then taking components is joining the components: the
      justification for modelling `push`/`join` by `Join`. */
  lemma {:induction false} PushStrComponents(a: string, b: string)
    ensures Parse(PushStr(a, b)) == Join(Parse(a), Parse(b))
  {
    if |b| > 0 && b[0] == '/' {
    } else if |a| == 0 {
      assert PushStr(a, b) == b;
    } else if a[|a| - 1] == '/' {
      var a0 := a[..|a| - 1];
      assert a == a0 + "/";
      if |a0| > 0 {
        PushOntoSeparator(a0, b);
      } else {
        PushOntoRoot(b);
      }
    } else {
      assert PushStr(a, b) == a + "/" + b;
      ParseRelative(b);
      ParseAroundSeparator(a, b);
    }
  }

  lemma {:induction false} PushOntoSeparator(a0: string, b: string)
    requires |a0| > 0 && (|b| == 0 || b[0] != '/')
    ensures Parse(PushStr(a0 + "/", b)) == Join(Parse(a0 + "/"), Parse(b))
  {
    var a := a0 + "/";
    assert a[|a| - 1] == '/';
    assert PushStr(a, b) == a0 + "/" + b;
    ParseRelative(b);
    ParseAroundSeparator(a0, b);
    assert Parse(a) == Parse(a0) by {
      ParseAroundSeparator(a0, "");
      assert a0 + "/" + "" == a;
      assert Body(Split("", '/')) == [];
    }
    var pa := Parse(a);
    var pb := Parse(b);
    assert |pa| > 0;
    assert |pb| == 0 || pb[0] != RootDir;
    assert Join(pa, pb) == pa + DropCur(pb);
  }

  lemma {:induction false} PushOntoRoot(b: string)
    requires |b| == 0 || b[0] != '/'
    ensures Parse(PushStr("/", b)) == Join(Parse("/"), Parse(b))
  {
    var s := "/" + b;
    assert PushStr("/", b) == s;
    ParseRelative(b);
    assert s[1..] == b;
    assert Split(s, '/') == [""] + Split(b, '/');
    assert Split("/", '/') == ["", ""];
    assert Parse("/") == [RootDir];
  }

  function Name(c: Component): string {
    match c
    case RootDir => "/"
    case CurDir => "."
    case ParentDir => ".."
    case Normal(n) => n
  }

  function Names(p: Path): (ns: seq<string>)
    ensures |ns| == |p|
    ensures forall i :: 0 <= i < |p| ==> ns[i] == Name(p[i])
  {
    seq(|p|, i requires 0 <= i < |p| => Name(p[i]))
  }

  /** The canonical text of a path, used wherever the program prints one. */
  function Display(p: Path): string {
    if |p| > 0 && p[0] == RootDir then "/" + JoinWith(Names(p[1..]), '/')
    else JoinWith(Names(p), '/')
  }

  lemma {:induction false} BodyOfNames(q: Path)
    requires forall i :: 0 <= i < |q| ==> IsNamePart(q[i])
    ensures forall i :: 0 <= i < |Names(q)| ==> '/' !in Names(q)[i]
    ensures Body(Names(q)) == q
    decreases |q|
  {
    if |q| > 0 {
      BodyOfNames(q[1..]);
      assert Names(q)[1..] == Names(q[1..]);
      assert Segment(Name(q[0])) == [q[0]];
      assert q == [q[0]] + q[1..];
    }
  }

  lemma JoinWithHead(parts: seq<string>, sep: char)
    requires |parts| > 0 && |parts[0]| > 0
    ensures |JoinWith(parts, sep)| > 0 && JoinWith(parts, sep)[0] == parts[0][0]
  {
  }

  /** Reading back a printed well-formed path gives the same components. */
  lemma DisplayRoundTrip(p: Path)
    requires WellFormed(p)
    ensures Parse(Display(p)) == p
  {
    if |p| > 0 {
      var rest := p[1..];
      assert forall i :: 0 <= i < |rest| ==> IsNamePart(rest[i]) by {
        forall i | 0 <= i < |rest| ensures IsNamePart(rest[i]) {
          assert rest[i] == p[i + 1];
        }
      }
      assert p == [p[0]] + rest;
      if p[0] == RootDir {
        DisplayRooted(rest);
      } else {
        DisplayRelative(p[0], rest);
      }
    }
  }

  lemma DisplayRooted(rest: Path)
    requires forall i :: 0 <= i < |rest| ==> IsNamePart(rest[i])
    ensures Parse(Display([RootDir] + rest)) == [RootDir] + rest
  {
    var p := [RootDir] + rest;
    assert p[1..] == rest;
    BodyOfNames(rest);
    var j := JoinWith(Names(rest), '/');
    var s := "/" + j;
    assert s[1..] == j;
    assert Split(s, '/') == [""] + Split(j, '/');
    if |rest| == 0 {
      assert j == "";
      SplitNoSep("", '/');
      assert Split(s, '/')[1..] == [""];
      assert Body([""]) == Segment("") + Body([]);
      assert Parse(s) == [RootDir];
    } else {
      SplitJoin(Names(rest), '/');
    }
  }

  lemma DisplayRelative(c: Component, rest: Path)
    requires c == CurDir || IsNamePart(c)
    requires forall i :: 0 <= i < |rest| ==> IsNamePart(rest[i])
    ensures Parse(Display([c] + rest)) == [c] + rest
  {
    var p := [c] + rest;
    var ns := Names(p);
    NamesCons(c, rest);
    var s := JoinWith(ns, '/');
    assert s == Display(p);
    SplitJoin(ns, '/');
    JoinWithHead(ns, '/');
    assert s[0] != '/';
    assert Split(s, '/') == ns;
    if c == CurDir {
      assert Parse(s) == [CurDir] + Body(ns[1..]);
    } else {
      assert Parse(s) == Body(ns);
      assert Body(ns) == Segment(ns[0]) + Body(ns[1..]);
      assert Segment(ns[0]) == [c];
    }
  }

  /** The names of a path with a front component, for a path whose components may follow
      the front. */
  lemma NamesCons(c: Component, rest: Path)
    requires c == CurDir || IsNamePart(c)
    requires forall i :: 0 <= i < |rest| ==> IsNamePart(rest[i])
    ensures var ns := Names([c] + rest);
      && ns[0] == Name(c) && |ns[0]| > 0 && ns[1..] == Names(rest)
      && (forall i :: 0 <= i < |ns| ==> '/' !in ns[i])
      && Body(ns[1..]) == rest
  {
    var ns := Names([c] + rest);
    BodyOfNames(rest);
    assert ns[1..] == Names(rest);
    forall i | 0 <= i < |ns| ensures '/' !in ns[i] {
      if i > 0 { assert ns[i] == Names(rest)[i - 1]; }
    }
  }

  /** `Path::parent`: drops a last `Normal`, `CurDir` or `ParentDir`; the empty path and the
      root have none. */
  function Parent(p: Path): (r: Option<Path>)
    ensures r.Some? <==> |p| > 0 && p[|p| - 1] != RootDir
    ensures r.Some? ==> r.value + [p[|p| - 1]] == p
  {
    if |p| == 0 || p[|p| - 1] == RootDir then None else Some(p[..|p| - 1])
  }

  /** `Path::file_name`: the last component when it is `Normal`. */
  function FileName(p: Path): (r: Option<string>)
    ensures r.Some? <==> |p| > 0 && p[|p| - 1].Normal?
  {
    if |p| > 0 && p[|p| - 1].Normal? then Some(p[|p| - 1].name) else None
  }

  /** Index of the last `c` in `s`. */
  function LastIndex(s: string, c: char): (r: Option<nat>)
    ensures r.None? ==> c !in s
    ensures r.Some? ==> r.value < |s| && s[r.value] == c && c !in s[r.value + 1..]
    decreases |s|
  {
    if |s| == 0 then None
    else if s[|s| - 1] == c then Some(|s| - 1)
    else
      var r := LastIndex(s[..|s| - 1], c);
      assert s == s[..|s| - 1] + [s[|s| - 1]];
      r
  }

  /** The stem Rust's `file_stem` takes from a file name: the part before the last `.`, or
      the whole name when there is no dot, the dot leads, or the name is `..`. */
  function Stem(name: string): string {
    if name == ".." then name
    else match LastIndex(name, '.')
      case None => name
      case Some(i) => if i == 0 then name else name[..i]
  }

  /** `Path::file_stem`. */
  function FileStem(p: Path): Option<string> {
    match FileName(p)
    case None => None
    case Some(n) => Some(Stem(n))
  }

  lemma {:induction false} LastIndexAt(s: string, c: char, k: nat)
    requires k < |s| && s[k] == c && c !in s[k + 1..]
    ensures LastIndex(s, c) == Some(k)
    decreases |s|
  {
    if k < |s| - 1 {
      assert s[|s| - 1] == s[k + 1..][|s| - k - 2];
      var t := s[..|s| - 1];
      assert t[k + 1..] == s[k + 1..|s| - 1];
      var u := t[k + 1..];
      assert c !in u by {
        forall i | 0 <= i < |u| ensures u[i] != c {
          assert u[i] == s[k + 1 + i];
        }
      }
      LastIndexAt(t, c, k);
    }
  }

  /** A name with one final extension loses exactly that extension. */
  lemma StemDropsExtension(base: string, ext: string)
    requires |base| > 0 && '.' !in ext
    requires base + "." + ext != ".."
    ensures Stem(base + "." + ext) == base
  {
    var n := base + "." + ext;
    assert n[|base|] == '.';
    assert n[|base| + 1..] == ext;
    LastIndexAt(n, '.', |base|);
    assert n[..|base|] == base;
  }

  /** A single valid name parses to one `Normal` component. */
  lemma ParseName(n: string)
    requires ValidName(n)
    ensures Parse(n) == [Normal(n)]
  {
    SplitNoSep(n, '/');
    assert Split(n, '/') == [n];
    assert Body([n]) == Segment(n) + Body([n][1..]);
  }

  /** Two valid names with a separator between them parse to their two components. */
  lemma ParseTwoNames(a: string, b: string)
    requires ValidName(a) && ValidName(b)
    ensures Parse(a + "/" + b) == [Normal(a), Normal(b)]
  {
    assert PushStr(a, b) == a + "/" + b;
    PushStrComponents(a, b);
    ParseName(a);
    ParseName(b);
  }

  /** A stem with an extension of two or more characters added is a name again. */
  lemma ExtendedName(stem: string, ext: string)
    requires stem != "" && '/' !in stem && |ext| >= 2 && '/' !in ext
    ensures ValidName(stem + ext)
  {
    var n := stem + ext;
    assert |n| >= 3;
    forall k | 0 <= k < |n| ensures n[k] != '/' {
      if k < |stem| { assert n[k] == stem[k]; }
      else { assert n[k] == ext[k - |stem|]; }
    }
  }

  /** The stem of a valid name is non-empty and has no separator. */
  lemma StemOfValidName(name: string)
    requires ValidName(name)
    ensures Stem(name) != "" && '/' !in Stem(name)
  {
    match LastIndex(name, '.')
    case None =>
    case Some(i) =>
      if i > 0 {
        assert forall j :: 0 <= j < i ==> name[..i][j] == name[j];
      }
  }

  /** `Path::strip_prefix`: the remaining components when `base` is a prefix. */
  function StripPrefix(p: Path, base: Path): (r: Option<Path>)
    ensures r.Some? <==> |base| <= |p| && p[..|base|] == base
    ensures r.Some? ==> base + r.value == p
  {
    if |base| <= |p| && p[..|base|] == base then Some(p[|base|..]) else None
  }

  predicate CompLess(a: Component, b: Component) {
    if a.Normal? && b.Normal? then StrLess(a.name, b.name)
    else Rank(a) < Rank(b)
  }

  function Rank(c: Component): nat {
    match c
    case RootDir => 0
    case CurDir => 1
    case ParentDir => 2
    case Normal(_) => 3
  }

  /** `Path`'s `Ord`: component by component. */
  predicate PathLess(a: Path, b: Path) {
    LexLess(a, b, CompLess)
  }

  lemma PathLessIsStrictTotalOrder()
    ensures StrictTotalOrder(PathLess)
  {
    StrLessIsStrictTotalOrder();
    assert StrictTotalOrder(CompLess);
    forall x: Path
      ensures !PathLess(x, x)
    {
      LexIrreflexive(x, CompLess);
    }
    forall x: Path, y: Path, z: Path | PathLess(x, y) && PathLess(y, z)
      ensures PathLess(x, z)
    {
      LexTransitive(x, y, z, CompLess);
    }
    forall x: Path, y: Path | x != y
      ensures PathLess(x, y) || PathLess(y, x)
    {
      LexTotal(x, y, CompLess);
    }
  }
}
