/**
 * POSIX paths as `pathlib` treats them: a path is its list of components,
 * with empty and "." components dropped, plus whether it is absolute.
 * `Normalize` is `str(Path(p))`, `Join` is the `/` operator, `Name`,
 * `Stem` and `Suffix` are the attributes of the same names.
 */
module Paths {
  import opened Text

  predicate IsAbsolute(p: string) {
    |p| > 0 && p[0] == '/'
  }

  /** A single path component as pathlib keeps it: not empty, not ".", no separator. */
  predicate IsComponent(c: string) {
    c != "" && c != "." && '/' !in c
  }

  /** The parts pathlib keeps, in order. */
  function Proper(parts: seq<string>): (r: seq<string>)
    ensures |r| <= |parts|
    ensures forall i :: 0 <= i < |r| ==> r[i] != "" && r[i] != "."
  {
    if |parts| == 0 then []
    else
      var last := parts[|parts| - 1];
      Proper(parts[..|parts| - 1]) + (if last == "" || last == "." then [] else [last])
  }

  function Components(p: string): (cs: seq<string>)
    ensures forall i :: 0 <= i < |cs| ==> IsComponent(cs[i])
  {
    var parts := Split(p, '/');
    var cs := Proper(parts);
    ProperKeepsSeparatorFree(parts, '/');
    cs
  }

  lemma {:induction false} ProperKeepsSeparatorFree(parts: seq<string>, sep: char)
    requires forall i :: 0 <= i < |parts| ==> sep !in parts[i]
    ensures forall i :: 0 <= i < |Proper(parts)| ==> sep !in Proper(parts)[i]
  {
    if |parts| > 0 {
      ProperKeepsSeparatorFree(parts[..|parts| - 1], sep);
    }
  }

  lemma {:induction false} ProperConcat(a: seq<string>, b: seq<string>)
    ensures Proper(a + b) == Proper(a) + Proper(b)
  {
    if |b| > 0 {
      var b' := b[..|b| - 1];
      assert (a + b)[..|a + b| - 1] == a + b';
      ProperConcat(a, b');
    } else {
      assert a + b == a;
    }
  }

  lemma {:induction false} ProperOfComponents(cs: seq<string>)
    requires forall i :: 0 <= i < |cs| ==> IsComponent(cs[i])
    ensures Proper(cs) == cs
  {
    if |cs| > 0 {
      ProperOfComponents(cs[..|cs| - 1]);
      assert cs[..|cs| - 1] + [cs[|cs| - 1]] == cs;
    }
  }

  /** `str(Path(p))`: root, then the components joined by "/"; "." for the empty relative path. */
  function Normalize(p: string): string {
    var body := JoinWith(Components(p), '/');
    if IsAbsolute(p) then "/" + body
    else if body == "" then "."
    else body
  }

  /** `Path(a) / b`: an absolute right side wins; otherwise the two are concatenated. */
  function Join(a: string, b: string): string {
    if IsAbsolute(b) || a == "" then Normalize(b) else Normalize(a + "/" + b)
  }

  /** `Path(p).name`: the last component, "" when there is none. */
  function Name(p: string): (n: string)
    ensures n == "" || IsComponent(n)
  {
    var cs := Components(p);
    if |cs| == 0 then "" else cs[|cs| - 1]
  }

  /** `Path(p).parent`, as a normalized path. */
  function Parent(p: string): string {
    var cs := Components(p);
    var up := if |cs| == 0 then [] else cs[..|cs| - 1];
    var body := JoinWith(up, '/');
    if IsAbsolute(p) then "/" + body
    else if body == "" then "."
    else body
  }

  /** `name.rfind('.')`. */
  function LastDot(name: string): (i: int)
    ensures -1 <= i < |name|
    ensures i >= 0 ==> name[i] == '.'
    ensures forall j :: i < j < |name| ==> name[j] != '.'
  {
    if |name| == 0 then -1
    else if name[|name| - 1] == '.' then |name| - 1
    else LastDot(name[..|name| - 1])
  }

  /** `PurePath.suffix` of a name: from the last dot on, unless that dot leads or ends the name. */
  function Suffix(name: string): string {
    var i := LastDot(name);
    if 0 < i < |name| - 1 then name[i..] else ""
  }

  /** `PurePath.stem` of a name: the name without its suffix. */
  function Stem(name: string): string {
    var i := LastDot(name);
    if 0 < i < |name| - 1 then name[..i] else name
  }

  lemma StemThenSuffix(name: string)
    ensures Stem(name) + Suffix(name) == name
  {
  }

  lemma {:induction false} ComponentsOfJoinWith(cs: seq<string>)
    requires forall i :: 0 <= i < |cs| ==> IsComponent(cs[i])
    ensures Components(JoinWith(cs, '/')) == cs
  {
    if |cs| == 0 {
      assert Split("", '/') == [""];
      assert Proper([""]) == Proper([]) + [];
    } else {
      SplitJoin(cs, '/');
      ProperOfComponents(cs);
    }
  }

  lemma ComponentsOfEmpty()
    ensures Components("") == []
  {
    assert Split("", '/') == [""];
    assert Proper([""]) == Proper([]) + [];
  }

  lemma ComponentsOfDot()
    ensures Components(".") == []
  {
    SplitNoSeparator(".", '/');
    assert Proper(["."]) == Proper([]) + [];
  }

  /** A leading "/" adds no component. */
  lemma ComponentsOfRooted(body: string)
    ensures Components("/" + body) == Components(body)
  {
    SplitConcat("", body, '/');
    assert "" + ['/'] + body == "/" + body;
    assert Split("", '/') == [""];
    ProperConcat([""], Split(body, '/'));
    assert Proper([""]) == Proper([]) + [];
  }

  /** Normalizing keeps the components: `Path(str(Path(p))) == Path(p)`. */
  lemma ComponentsOfNormalize(p: string)
    ensures Components(Normalize(p)) == Components(p)
  {
    var cs := Components(p);
    var body := JoinWith(cs, '/');
    ComponentsOfJoinWith(cs);
    if IsAbsolute(p) {
      ComponentsOfRooted(body);
    } else if body == "" {
      ComponentsOfDot();
    }
  }

  lemma ComponentsOfConcat(a: string, b: string)
    ensures Components(a + "/" + b) == Components(a) + Components(b)
  {
    SplitConcat(a, b, '/');
    assert a + "/" + b == a + ['/'] + b;
    ProperConcat(Split(a, '/'), Split(b, '/'));
  }

  /** Joining a directory with a single component names that component. */
  lemma NameOfJoin(dir: string, c: string)
    requires IsComponent(c)
    ensures Name(Join(dir, c)) == c
  {
    SplitNoSeparator(c, '/');
    assert Proper([c]) == Proper([]) + [c];
    if dir == "" {
      ComponentsOfNormalize(c);
    } else {
      ComponentsOfNormalize(dir + "/" + c);
      ComponentsOfConcat(dir, c);
    }
  }

  /** `Path(str(Path(p)))` has the same parent as `Path(p)`. */
  lemma ParentOfNormalize(p: string)
    ensures Parent(Normalize(p)) == Parent(p)
  {
    ComponentsOfNormalize(p);
    NormalizeKeepsRoot(p);
  }

  /** `Path(str(Path(p)))` keeps its name. */
  lemma NameOfNormalize(p: string)
    ensures Name(Normalize(p)) == Name(p)
  {
    ComponentsOfNormalize(p);
  }

  /**
   * A normalized path never starts with "./": pathlib has already dropped
   * the "." component.
   */
  lemma NormalizeHasNoDotSlash(p: string)
    ensures !StartsWith(Normalize(p), "./")
  {
    var cs := Components(p);
    var n := Normalize(p);
    if IsAbsolute(p) {
      assert n[0] == '/';
    } else if |cs| == 0 {
      assert n == ".";
    } else {
      var first := cs[0];
      assert IsComponent(first);
      if |cs| > 1 {
        assert n == first + ['/'] + JoinWith(cs[1..], '/');
      } else {
        assert n == first;
      }
      assert n[..|first|] == first;
      if |first| >= 2 {
        assert n[1] == first[1];
        assert first[1] in first;
      } else {
        assert first == [first[0]];
        assert first[0] != '.';
        assert n[0] == first[0];
      }
    }
  }

  /** A joined sequence of components starts with its first component. */
  lemma JoinWithStartsWithFirst(cs: seq<string>)
    requires |cs| > 0
    ensures |JoinWith(cs, '/')| >= |cs[0]| && JoinWith(cs, '/')[..|cs[0]|] == cs[0]
  {
    if |cs| > 1 {
      assert JoinWith(cs, '/') == cs[0] + (['/'] + JoinWith(cs[1..], '/'));
    }
  }

  /** Normalizing keeps a path absolute or relative. */
  lemma NormalizeKeepsRoot(p: string)
    ensures IsAbsolute(Normalize(p)) <==> IsAbsolute(p)
  {
    var cs := Components(p);
    if !IsAbsolute(p) && |cs| > 0 {
      JoinWithStartsWithFirst(cs);
      assert IsComponent(cs[0]);
      assert Normalize(p)[0] == cs[0][0];
    }
  }

  /** The parent of a directory joined with one component is that directory. */
  lemma ParentOfJoin(dir: string, c: string)
    requires IsComponent(c)
    ensures Parent(Join(dir, c)) == Normalize(dir)
  {
    SplitNoSeparator(c, '/');
    assert Proper([c]) == Proper([]) + [c];
    var p := if dir == "" then c else dir + "/" + c;
    assert Join(dir, c) == Normalize(p);
    ComponentsOfNormalize(p);
    NormalizeKeepsRoot(p);
    if dir == "" {
      ComponentsOfEmpty();
      assert Components(p) == [c];
    } else {
      ComponentsOfConcat(dir, c);
      assert IsAbsolute(p) == IsAbsolute(dir);
    }
    var cs := Components(Join(dir, c));
    assert cs[..|cs| - 1] == Components(dir);
  }

  /** A normalized path is determined by its components and whether it is absolute. */
  lemma NormalizeByParts(p: string, q: string)
    requires Components(p) == Components(q) && (IsAbsolute(p) <==> IsAbsolute(q))
    ensures Normalize(p) == Normalize(q)
  {
  }

  /** `Path(str(Path(p))) == Path(p)`, as strings. */
  lemma NormalizeIdempotent(p: string)
    ensures Normalize(Normalize(p)) == Normalize(p)
  {
    ComponentsOfNormalize(p);
    NormalizeKeepsRoot(p);
    NormalizeByParts(Normalize(p), p);
  }

  /** The components of `Parent(p)` are those of `p` but the last. */
  lemma ComponentsOfParent(p: string)
    requires |Components(p)| > 0
    ensures Components(Parent(p)) == Components(p)[..|Components(p)| - 1]
    ensures IsAbsolute(Parent(p)) <==> IsAbsolute(p)
  {
    var cs := Components(p);
    var up := cs[..|cs| - 1];
    var body := JoinWith(up, '/');
    ComponentsOfJoinWith(up);
    if IsAbsolute(p) {
      ComponentsOfRooted(body);
    } else if body == "" {
      ComponentsOfDot();
      ComponentsOfEmpty();
    } else {
      JoinWithStartsWithFirst(up);
      assert IsComponent(up[0]);
      assert Parent(p)[0] == up[0][0];
    }
  }

  /** A path with a name lies in its parent under that name. */
  lemma JoinParentName(p: string)
    requires Name(p) != ""
    ensures Join(Parent(p), Name(p)) == Normalize(p)
  {
    var cs := Components(p);
    var n := Name(p);
    var dir := Parent(p);
    ParentNotEmpty(p);
    assert n[0] != '/' by { assert n[0] in n; }
    assert Join(dir, n) == Normalize(dir + "/" + n);
    ComponentsOfParent(p);
    ComponentsOfComponent(n);
    ComponentsOfConcat(dir, n);
    assert cs[..|cs| - 1] + [n] == cs;
    assert IsAbsolute(dir + "/" + n) <==> IsAbsolute(dir);
    NormalizeByParts(dir + "/" + n, p);
  }

  lemma ParentNotEmpty(p: string)
    ensures Parent(p) != ""
  {
  }

  lemma ComponentsOfComponent(c: string)
    requires IsComponent(c)
    ensures Components(c) == [c]
  {
    SplitNoSeparator(c, '/');
    assert Proper([c]) == Proper([]) + [c];
  }

  /** Joining a relative path under a directory keeps the path's name. */
  lemma NameOfJoinRelative(dir: string, p: string)
    requires !IsAbsolute(p) && Name(p) != ""
    ensures Name(Join(dir, p)) == Name(p)
  {
    if dir == "" {
      NameOfNormalize(p);
    } else {
      ComponentsOfNormalize(dir + "/" + p);
      ComponentsOfConcat(dir, p);
    }
  }
}
