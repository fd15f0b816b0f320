/**
 * The breadcrumb trail of components/layout/breadcrumbs.tsx: the current
 * pathname is cut into segments, and each segment becomes a link to the
 * path up to and including it, after a leading "Home" link.
 */
module Breadcrumbs {
  import Text
  import Seqs

  /** `BreadcrumbItem`; its `label` is `title` here (`label` is a keyword in Dafny). */
  datatype Crumb = Crumb(title: string, href: string)

  /** `s.split("/")`: the pieces between separators, empty pieces included. */
  function Split(s: string): (r: seq<string>)
    ensures |r| >= 1
    ensures forall piece :: piece in r ==> '/' !in piece
    decreases |s|
  {
    if |s| == 0 then [""]
    else
      var rest := Split(s[1..]);
      if s[0] == '/' then [""] + rest
      else
        assert rest[0] in rest;
        [[s[0]] + rest[0]] + rest[1..]
  }

  /** The pieces put back together with "/" between them. */
  function Join(pieces: seq<string>): string
    requires |pieces| >= 1
    decreases |pieces|
  {
    if |pieces| == 1 then pieces[0] else pieces[0] + "/" + Join(pieces[1..])
  }

  predicate NoSlash(pieces: seq<string>) {
    forall k :: 0 <= k < |pieces| ==> '/' !in pieces[k]
  }

  /** Splitting loses nothing: joining the pieces gives the string back. */
  lemma {:induction false} JoinSplit(s: string)
    ensures Join(Split(s)) == s
    decreases |s|
  {
    if |s| > 0 {
      JoinSplit(s[1..]);
      var rest := Split(s[1..]);
      if s[0] == '/' {
        assert s == [s[0]] + s[1..];
      } else {
        if |rest| == 1 {
          assert s == [s[0]] + rest[0];
        } else {
          assert Join(rest) == rest[0] + "/" + Join(rest[1..]);
          assert ([[s[0]] + rest[0]] + rest[1..])[1..] == rest[1..];
          assert s == [s[0]] + s[1..];
        }
      }
    }
  }

  /** A string with no "/" in front of `t` just extends the first piece of `t`. */
  lemma {:induction false} SplitPrepend(w: string, t: string)
    requires '/' !in w
    ensures Split(w + t) == [w + Split(t)[0]] + Split(t)[1..]
    decreases |w|
  {
    if |w| > 0 {
      SplitPrepend(w[1..], t);
      assert (w + t)[1..] == w[1..] + t;
      assert (w + t)[0] == w[0] && w[0] != '/';
      assert [w[0]] + (w[1..] + Split(t)[0]) == w + Split(t)[0];
    } else {
      assert w + t == t;
      assert w + Split(t)[0] == Split(t)[0];
      assert Split(t) == [Split(t)[0]] + Split(t)[1..];
    }
  }

  /** Joining pieces that hold no "/" and splitting again gives the pieces back. */
  lemma {:induction false} SplitJoin(pieces: seq<string>)
    requires |pieces| >= 1 && NoSlash(pieces)
    ensures Split(Join(pieces)) == pieces
    decreases |pieces|
  {
    if |pieces| == 1 {
      SplitPrepend(pieces[0], "");
      assert pieces[0] + "" == pieces[0];
    } else {
      var rest := pieces[1..];
      SplitJoin(rest);
      var tail := "/" + Join(rest);
      assert Join(pieces) == pieces[0] + tail;
      SplitPrepend(pieces[0], tail);
      assert tail[1..] == Join(rest);
      assert Split(tail) == [""] + rest;
      assert pieces[0] + "" == pieces[0];
      assert pieces == [pieces[0]] + rest;
    }
  }

  /** Joining one more piece adds "/" and that piece at the end. */
  lemma {:induction false} JoinSnoc(pieces: seq<string>, w: string)
    requires |pieces| >= 1
    ensures Join(pieces + [w]) == Join(pieces) + "/" + w
    decreases |pieces|
  {
    if |pieces| > 1 {
      JoinSnoc(pieces[1..], w);
      assert (pieces + [w])[1..] == pieces[1..] + [w];
    }
  }

  /** `pathname.split("/").filter(Boolean)`. */
  function Segments(pathname: string): seq<string> {
    Seqs.Filter(Split(pathname), (p: string) => p != "")
  }

  /** Every segment is a non-empty name without "/". */
  lemma SegmentsAreNames(pathname: string)
    ensures var segs := Segments(pathname);
            forall k :: 0 <= k < |segs| ==> segs[k] != "" && '/' !in segs[k]
  {
    var segs := Segments(pathname);
    assert forall k :: 0 <= k < |segs| ==> segs[k] in segs;
  }

  /** The value of `currentPath` once the first `n` segments have been appended. */
  function PathTo(segs: seq<string>, n: nat): string
    requires n <= |segs|
    decreases n
  {
    if n == 0 then "" else PathTo(segs, n - 1) + "/" + segs[n - 1]
  }

  /** The path of the first `n` segments is those segments joined behind a leading "/". */
  lemma {:induction false} PathToIsJoin(segs: seq<string>, n: nat)
    requires n <= |segs|
    ensures PathTo(segs, n) == Join([""] + segs[..n])
  {
    if n > 0 {
      PathToIsJoin(segs, n - 1);
      JoinSnoc([""] + segs[..n - 1], segs[n - 1]);
      assert [""] + segs[..n] == ([""] + segs[..n - 1]) + [segs[n - 1]];
    }
  }

  /** A path built from proper segments cuts back into exactly those segments. */
  lemma {:induction false} SegmentsOfPath(segs: seq<string>, n: nat)
    requires n <= |segs|
    requires forall k :: 0 <= k < |segs| ==> segs[k] != "" && '/' !in segs[k]
    ensures Segments(PathTo(segs, n)) == segs[..n]
  {
    PathToIsJoin(segs, n);
    SplitJoin([""] + segs[..n]);
    var p := (s: string) => s != "";
    Seqs.FilterConcat([""], segs[..n], p);
    Seqs.FilterKeepsAll(segs[..n], p);
    assert Seqs.Filter([""], p) == [] by {
      assert Seqs.Filter([""], p) == (if p("") then [""] else []) + Seqs.Filter([], p);
    }
  }

  /** `capitalize`: the first character upper-cased (ASCII), the rest unchanged. */
  function Capitalize(s: string): string {
    if |s| == 0 then "" else [Text.UpperChar(s[0])] + s[1..]
  }

  /** Capitalizing keeps the length and changes nothing but the case of the first character. */
  lemma CapitalizeOnlyCase(s: string)
    ensures |Capitalize(s)| == |s|
    ensures |s| > 0 ==> Capitalize(s)[1..] == s[1..] && !Text.IsLower(Capitalize(s)[0])
    ensures Text.ToLower(Capitalize(s)) == Text.ToLower(s)
  {
    if |s| > 0 {
      assert Text.ToLower(Capitalize(s))[0] == Text.ToLower(s)[0];
    }
  }

  /** `!isNaN(Number(path))`, for the decimal segments used as ids. */
  predicate IsNumeric(segment: string) {
    Text.AllDigits(segment)
  }

  /** `parentName.slice(0, -1)`: the name without its last character. */
  function DropLast(s: string): string {
    if |s| == 0 then "" else s[..|s| - 1]
  }

  /** Dropping the last character is the slice from 0 to -1. */
  lemma DropLastIsSlice(s: string)
    ensures DropLast(s) == Seqs.JsSlice(s, 0, -1)
  {
  }

  /** The label of the crumb for segment `k`: "Parent #id" for a numeric id, else the capitalized segment. */
  function Label(segs: seq<string>, k: nat): string
    requires k < |segs|
  {
    if IsNumeric(segs[k]) then
      var parent := if k == 0 then "" else segs[k - 1];
      Capitalize(DropLast(parent)) + " #" + segs[k]
    else Capitalize(segs[k])
  }

  const HomeCrumb := Crumb("Home", "/")

  /** The crumbs for the first `n` segments, in order. */
  function Crumbs(segs: seq<string>, n: nat): (r: seq<Crumb>)
    requires n <= |segs|
    ensures |r| == n
  {
    if n == 0 then [] else Crumbs(segs, n - 1) + [Crumb(Label(segs, n - 1), PathTo(segs, n))]
  }

  /** The crumb for segment `k` carries that segment's label and the path up to it. */
  lemma {:induction false} CrumbAt(segs: seq<string>, n: nat, k: nat)
    requires k < n <= |segs|
    ensures Crumbs(segs, n)[k] == Crumb(Label(segs, k), PathTo(segs, k + 1))
  {
    if k < n - 1 {
      CrumbAt(segs, n - 1, k);
    }
  }

  /** The trail `getBreadcrumbs` builds: "Home", then one crumb per segment. */
  function Trail(pathname: string): seq<Crumb> {
    var segs := Segments(pathname);
    [HomeCrumb] + Crumbs(segs, |segs|)
  }

  /** `getBreadcrumbs`, with its `currentPath` accumulator. */
  method GetBreadcrumbs(pathname: string) returns (crumbs: seq<Crumb>)
    ensures crumbs == Trail(pathname)
  {
    var paths := Segments(pathname);
    crumbs := [HomeCrumb];
    var currentPath := "";
    var i := 0;
    while i < |paths|
      invariant 0 <= i <= |paths|
      invariant currentPath == PathTo(paths, i)
      invariant crumbs == [HomeCrumb] + Crumbs(paths, i)
    {
      currentPath := currentPath + "/" + paths[i];
      var title := Label(paths, i);
      crumbs := crumbs + [Crumb(title, currentPath)];
      i := i + 1;
    }
  }

  /** The crumb after "Home" at position k links to the path of the first k segments. */
  lemma TrailHref(pathname: string, k: nat)
    requires 1 <= k < |Trail(pathname)|
    ensures |Trail(pathname)| == |Segments(pathname)| + 1
    ensures Trail(pathname)[k].href == PathTo(Segments(pathname), k)
  {
    var segs := Segments(pathname);
    CrumbAt(segs, |segs|, k - 1);
  }

  /**
   * One crumb per segment after "Home", and the crumb at position k links to
   * the path made of the first k segments.
   */
  lemma {:induction false} TrailLinks(pathname: string)
    ensures var segs, t := Segments(pathname), Trail(pathname);
            && |t| == |segs| + 1
            && t[0] == Crumb("Home", "/")
            && (forall k :: 1 <= k < |t| ==> Segments(t[k].href) == segs[..k])
  {
    var segs, t := Segments(pathname), Trail(pathname);
    forall k | 1 <= k < |t|
      ensures Segments(t[k].href) == segs[..k]
    {
      TrailHref(pathname, k);
      SegmentsAreNames(pathname);
      SegmentsOfPath(segs, k);
    }
  }

  /** Each crumb's link, followed by "/", begins the next crumb's link: the trail walks one level down at a time. */
  lemma {:induction false} TrailNested(pathname: string)
    ensures var t := Trail(pathname);
            forall k :: 1 <= k < |t| - 1 ==> Text.StartsWith(t[k + 1].href, t[k].href + "/")
  {
    var segs, t := Segments(pathname), Trail(pathname);
    forall k | 1 <= k < |t| - 1
      ensures Text.StartsWith(t[k + 1].href, t[k].href + "/")
    {
      TrailHref(pathname, k);
      TrailHref(pathname, k + 1);
      var prefix := PathTo(segs, k) + "/";
      assert t[k + 1].href == prefix + segs[k];
      assert (prefix + segs[k])[..|prefix|] == prefix;
    }
  }

  /** On a canonical path ("/a/b/..."), the last crumb links to the current page itself. */
  lemma {:induction false} LastCrumbIsCurrentPage(segs: seq<string>)
    requires |segs| >= 1
    requires forall k :: 0 <= k < |segs| ==> segs[k] != "" && '/' !in segs[k]
    ensures var t := Trail(PathTo(segs, |segs|)); t[|t| - 1].href == PathTo(segs, |segs|)
  {
    SegmentsOfPath(segs, |segs|);
    assert segs[..|segs|] == segs;
    CrumbAt(segs, |segs|, |segs| - 1);
  }

  /**
   * The labels: a non-numeric segment shows capitalized; a numeric id shows
   * as "#id" after its parent segment minus its last letter (the singular of
   * "characters", "episodes", "locations"), or after nothing at the front.
   */
  lemma {:induction false} TrailLabels(pathname: string)
    ensures var segs, t := Segments(pathname), Trail(pathname);
            && (forall k :: 0 <= k < |segs| && !IsNumeric(segs[k]) ==> t[k + 1].title == Capitalize(segs[k]))
            && (forall k :: 1 <= k < |segs| && IsNumeric(segs[k]) ==>
                  t[k + 1].title == Capitalize(DropLast(segs[k - 1])) + " #" + segs[k])
            && (|segs| >= 1 && IsNumeric(segs[0]) ==> t[1].title == " #" + segs[0])
  {
    var segs, t := Segments(pathname), Trail(pathname);
    var cs := Crumbs(segs, |segs|);
    assert t == [HomeCrumb] + cs;
    forall k | 0 <= k < |segs| && !IsNumeric(segs[k])
      ensures t[k + 1].title == Capitalize(segs[k])
    {
      assert t[k + 1] == cs[k];
      CrumbAt(segs, |segs|, k);
    }
    forall k | 1 <= k < |segs| && IsNumeric(segs[k])
      ensures t[k + 1].title == Capitalize(DropLast(segs[k - 1])) + " #" + segs[k]
    {
      assert t[k + 1] == cs[k];
      CrumbAt(segs, |segs|, k);
    }
    if |segs| >= 1 && IsNumeric(segs[0]) {
      assert t[1] == cs[0];
      CrumbAt(segs, |segs|, 0);
      assert Capitalize(DropLast("")) + " #" + segs[0] == " #" + segs[0];
    }
  }

  /** The two labels of a character detail page. */
  lemma CharacterDetailLabels()
    ensures Label(["characters", "42"], 0) == "Characters"
    ensures Label(["characters", "42"], 1) == "Character #42"
  {
    assert !IsNumeric("characters") by { assert !Text.IsDigit("characters"[0]); }
    assert IsNumeric("42") by { assert Text.IsDigit("42"[0]) && Text.IsDigit("42"[1]); }
    assert Capitalize("characters") == "Characters" by {
      assert "characters"[1..] == "haracters";
    }
    assert DropLast("characters") == "character";
    assert Capitalize("character") == "Character" by {
      assert "character"[1..] == "haracter";
    }
  }

  /** "/characters/42" has the segments "characters" and "42". */
  lemma CharacterDetailSegments()
    ensures Segments("/characters/42") == ["characters", "42"]
  {
    var segs := ["characters", "42"];
    assert PathTo(segs, 1) == "/characters";
    assert PathTo(segs, 2) == "/characters/42";
    SegmentsOfPath(segs, 2);
    assert segs[..2] == segs;
  }

  /** The crumbs for those segments. */
  lemma CharacterDetailCrumbs()
    ensures Crumbs(["characters", "42"], 2) ==
      [Crumb("Characters", "/characters"), Crumb("Character #42", "/characters/42")]
  {
    var segs := ["characters", "42"];
    CharacterDetailLabels();
    assert PathTo(segs, 1) == "/characters";
    assert PathTo(segs, 2) == "/characters/42";
    assert Crumbs(segs, 1) == [Crumb("Characters", "/characters")];
  }

  /** A character detail page: Home / Characters / Character #42. */
  lemma CharacterDetailTrail()
    ensures Trail("/characters/42") ==
      [Crumb("Home", "/"), Crumb("Characters", "/characters"), Crumb("Character #42", "/characters/42")]
  {
    CharacterDetailSegments();
    CharacterDetailCrumbs();
  }

  /** The trail is shown unless the pathname is "/" or it holds only "Home". */
  predicate Shown(pathname: string) {
    pathname != "/" && |Trail(pathname)| > 1
  }

  /** The trail is shown exactly when the pathname has at least one segment. */
  lemma ShownIffSegments(pathname: string)
    ensures Shown(pathname) <==> Segments(pathname) != []
  {
    if pathname == "/" {
      assert Split("/") == ["", ""];
      Seqs.FilterRejectsAll(Split("/"), (p: string) => p != "");
    }
  }
}
