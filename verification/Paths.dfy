/** Path algebra: joining a controller prefix with a route, URI versioning, and the translation of
    `:name` segments to the `{name}` templates of OpenAPI 3.1 (section 4.8.8). */
module Paths {
  import opened Basics

  function TrimEnd(s: string): string {
    if s != "" && s[|s| - 1] == '/' then TrimEnd(s[..|s| - 1]) else s
  }

  function TrimStart(s: string): string {
    if s != "" && s[0] == '/' then TrimStart(s[1..]) else s
  }

  function JoinTrimmed(p: string, r: string): string {
    if p == "" && r == "" then "/"
    else if r == "" then p
    else if p == "" then "/" + r
    else p + "/" + r
  }

  function JoinPath(prefix: string, rest: string): string {
    JoinTrimmed(TrimEnd(prefix), TrimStart(rest))
  }

  function VersionPath(version: Option<string>, path: string): string {
    match version
    case Some(v) => JoinPath("/v" + v, path)
    case None => path
  }

  // ---------------------------------------------------------------- trimming

  lemma {:induction false} TrimEndSplit(x: string, y: string)
    requires TrimEnd(y) != ""
    ensures TrimEnd(x + y) == x + TrimEnd(y)
  {
    if y[|y| - 1] == '/' {
      TrimEndSplit(x, y[..|y| - 1]);
      assert (x + y)[..|x + y| - 1] == x + y[..|y| - 1];
    }
  }

  lemma {:induction false} TrimStartSplit(x: string, y: string)
    requires TrimStart(x) != ""
    ensures TrimStart(x + y) == TrimStart(x) + y
  {
    if x[0] == '/' {
      TrimStartSplit(x[1..], y);
      assert (x + y)[1..] == x[1..] + y;
    }
  }

  lemma {:induction false} TrimEndEnds(s: string)
    ensures TrimEnd(s) != "" ==> TrimEnd(s)[|TrimEnd(s)| - 1] != '/'
    ensures TrimEnd(TrimEnd(s)) == TrimEnd(s)
  {
    if s != "" && s[|s| - 1] == '/' { TrimEndEnds(s[..|s| - 1]); }
  }

  lemma {:induction false} TrimStartStarts(s: string)
    ensures TrimStart(s) != "" ==> TrimStart(s)[0] != '/'
    ensures TrimStart(TrimStart(s)) == TrimStart(s)
  {
    if s != "" && s[0] == '/' { TrimStartStarts(s[1..]); }
  }

  lemma {:induction false} NoTrimEnd(s: string)
    requires s != "" && s[|s| - 1] != '/'
    ensures TrimStart(s) != "" && TrimEnd(TrimStart(s)) == TrimStart(s)
  {
    if s[0] == '/' {
      NoTrimEnd(s[1..]);
    }
  }

  /** Trimming one end and then the other is the same in either order. */
  lemma {:induction false} TrimsCommute(s: string)
    ensures TrimStart(TrimEnd(s)) == TrimEnd(TrimStart(s))
    ensures TrimEnd(s) == "" <==> TrimStart(s) == ""
    decreases |s|
  {
    if s != "" {
      var last := |s| - 1;
      if s[last] == '/' && s[0] == '/' {
        if last == 0 {
          assert s[1..] == "" && s[..last] == "";
        } else {
          var inner := s[1..last];
          assert s[..last][1..] == inner && s[1..][..last - 1] == inner;
          TrimsCommute(s[1..]);
          TrimsCommute(s[..last]);
          TrimsCommute(inner);
        }
      } else if s[last] == '/' {
        TrimsCommute(s[..last]);
        assert TrimStart(s) == s && s[..last][0] == s[0];
      } else if s[0] == '/' {
        assert TrimEnd(s) == s;
        NoTrimEnd(s);
      }
    }
  }

  lemma JoinTrimEnd(a: string, b: string)
    ensures TrimEnd(JoinPath(a, b)) ==
              if TrimStart(b) == "" then TrimEnd(a) else TrimEnd(a) + "/" + TrimEnd(TrimStart(b))
  {
    var p, r := TrimEnd(a), TrimStart(b);
    TrimEndEnds(a);
    if r == "" {
      assert "/"[..0] == "";
    } else {
      TrimStartStarts(b);
      TrimsCommute(r);
      TrimEndSplit(p + "/", r);
      TrimEndSplit("/", r);
      assert p == "" ==> p + "/" == "/";
    }
  }

  lemma JoinTrimStart(b: string, c: string)
    ensures TrimStart(JoinPath(b, c)) ==
              if TrimEnd(b) == "" then TrimStart(c)
              else if TrimStart(c) == "" then TrimStart(TrimEnd(b))
              else TrimStart(TrimEnd(b)) + "/" + TrimStart(c)
  {
    var q, t := TrimEnd(b), TrimStart(c);
    TrimStartStarts(c);
    TrimEndEnds(b);
    if q == "" {
      assert ("/" + t)[1..] == t;
      assert "/"[1..] == "";
    } else if t != "" {
      NoTrimEnd(q);
      TrimStartSplit(q, "/" + t);
      assert q + "/" + t == q + ("/" + t);
    }
  }

  lemma MiddleMoves(p: string, m: string, t: string)
    requires m != ""
    ensures JoinTrimmed(p + "/" + m, t) == JoinTrimmed(p, if t == "" then m else m + "/" + t)
  {
    assert p + "/" + (m + "/" + t) == (p + "/" + m) + "/" + t;
    assert p == "" ==> p + "/" + m == "/" + m && p + "/" + (m + "/" + t) == "/" + (m + "/" + t);
  }

  /** Joining is associative for all strings, however many slashes they begin or end with. */
  lemma JoinAssociative(a: string, b: string, c: string)
    ensures JoinPath(JoinPath(a, b), c) == JoinPath(a, JoinPath(b, c))
  {
    JoinTrimEnd(a, b);
    JoinTrimStart(b, c);
    TrimsCommute(b);
    TrimEndEnds(b);
    if TrimStart(b) != "" {
      NoTrimEnd(TrimEnd(b));
      MiddleMoves(TrimEnd(a), TrimEnd(TrimStart(b)), TrimStart(c));
    }
  }

  predicate Slashes(s: string) {
    forall i :: 0 <= i < |s| ==> s[i] == '/'
  }

  lemma {:induction false} TrimEndLeaves(s: string) returns (slashes: string)
    ensures s == TrimEnd(s) + slashes && Slashes(slashes)
  {
    slashes := "";
    if s != "" && s[|s| - 1] == '/' {
      slashes := TrimEndLeaves(s[..|s| - 1]);
      slashes := slashes + "/";
    }
  }

  lemma {:induction false} TrimStartLeaves(s: string) returns (slashes: string)
    ensures s == slashes + TrimStart(s) && Slashes(slashes)
  {
    slashes := "";
    if s != "" && s[0] == '/' {
      slashes := TrimStartLeaves(s[1..]);
      slashes := "/" + slashes;
    }
  }

  /** What joining does: the slashes at the seam, however many, become one; there is none when a part is
      only slashes, except that a joined path is never empty and one with an empty prefix begins with
      its slash. */
  lemma JoinMeaning(a: string, b: string) returns (p: string, x: string, y: string, r: string)
    ensures a == p + x && b == y + r && Slashes(x) && Slashes(y)
    ensures (p != "" ==> p[|p| - 1] != '/') && (r != "" ==> r[0] != '/')
    ensures r != "" ==> JoinPath(a, b) == p + "/" + r
    ensures r == "" ==> JoinPath(a, b) == if p == "" then "/" else p
  {
    p, r := TrimEnd(a), TrimStart(b);
    x := TrimEndLeaves(a);
    y := TrimStartLeaves(b);
    TrimEndEnds(a);
    TrimStartStarts(b);
  }

  /** A versioned controller serves each route at the unversioned path behind `/v{version}`, and one
      without a version at the path itself: the path the transport logs and the one the document
      shows. */
  lemma VersionedRoute(version: Option<string>, path: string, route: string)
    ensures JoinPath(VersionPath(version, path), route) ==
      match version
      case Some(v) => JoinPath("/v" + v, JoinPath(path, route))
      case None => JoinPath(path, route)
  {
    if version.Some? {
      JoinAssociative("/v" + version.value, path, route);
    }
  }

  // ---------------------------------------------------------------- segments

  function Split(s: string): (segs: seq<string>)
    ensures |segs| > 0
  {
    if s == "" then [""]
    else
      var rest := Split(s[1..]);
      if s[0] == '/' then [""] + rest else [[s[0]] + rest[0]] + rest[1..]
  }

  function Join(segs: seq<string>): string
    requires |segs| > 0
  {
    if |segs| == 1 then segs[0] else segs[0] + "/" + Join(segs[1..])
  }

  lemma {:induction false} JoinOfSplit(s: string)
    ensures Join(Split(s)) == s
  {
    if s != "" {
      JoinOfSplit(s[1..]);
      var rest := Split(s[1..]);
      if s[0] == '/' {
        assert Split(s)[1..] == rest;
        assert s == "/" + s[1..];
      } else {
        assert Split(s)[1..] == rest[1..];
        assert s == [s[0]] + s[1..];
      }
    }
  }

  lemma {:induction false} SplitHasNoSlash(s: string)
    ensures forall i :: 0 <= i < |Split(s)| ==> '/' !in Split(s)[i]
  {
    if s != "" { SplitHasNoSlash(s[1..]); }
  }

  lemma {:induction false} SplitOne(s: string)
    requires '/' !in s
    ensures Split(s) == [s]
  {
    if s != "" {
      SplitOne(s[1..]);
      assert s == [s[0]] + s[1..];
    }
  }

  lemma HeadOfAppend(a: seq<string>, b: seq<string>)
    requires |a| > 0
    ensures (a + b)[0] == a[0] && (a + b)[1..] == a[1..] + b
  {
  }

  function SplitHead(c: char, rest: seq<string>): seq<string>
    requires |rest| > 0
  {
    if c == '/' then [""] + rest else [[c] + rest[0]] + rest[1..]
  }

  lemma SplitHeadAppend(c: char, a: seq<string>, b: seq<string>)
    requires |a| > 0
    ensures SplitHead(c, a + b) == SplitHead(c, a) + b
  {
    HeadOfAppend(a, b);
    assert [""] + (a + b) == ([""] + a) + b;
    assert [[c] + a[0]] + (a[1..] + b) == ([[c] + a[0]] + a[1..]) + b;
  }

  lemma {:induction false} SplitGlued(x: string, y: string, z: string)
    requires z == x + "/" + y
    ensures Split(z) == Split(x) + Split(y)
  {
    if x == "" {
      assert z[1..] == y;
    } else {
      assert z[0] == x[0] && z[1..] == x[1..] + "/" + y;
      SplitGlued(x[1..], y, z[1..]);
      SplitHeadAppend(x[0], Split(x[1..]), Split(y));
      assert Split(x) == SplitHead(x[0], Split(x[1..]));
      assert Split(z) == SplitHead(z[0], Split(z[1..]));
    }
  }

  lemma SplitAtSlash(x: string, y: string)
    ensures Split(x + "/" + y) == Split(x) + Split(y)
  {
    SplitGlued(x, y, x + "/" + y);
  }

  lemma {:induction false} SplitOfJoin(segs: seq<string>)
    requires |segs| > 0 && forall i :: 0 <= i < |segs| ==> '/' !in segs[i]
    ensures Split(Join(segs)) == segs
  {
    SplitOne(segs[0]);
    if |segs| == 1 {
      assert segs == [segs[0]];
    } else {
      SplitOfJoin(segs[1..]);
      SplitAtSlash(segs[0], Join(segs[1..]));
      assert segs == [segs[0]] + segs[1..];
    }
  }

  // ---------------------------------------------------------------- OpenAPI paths

  function Template(name: string): string { "{" + name + "}" }

  predicate IsParameter(seg: string) { seg != "" && seg[0] == ':' }

  predicate IsTemplate(seg: string) { |seg| >= 2 && seg[0] == '{' && seg[|seg| - 1] == '}' }

  function OpenApiSegment(seg: string): string {
    if IsParameter(seg) then Template(seg[1..]) else seg
  }

  function Mapped(segs: seq<string>): seq<string> {
    seq(|segs|, i requires 0 <= i < |segs| => OpenApiSegment(segs[i]))
  }

  function OpenApiPath(path: string): string {
    Join(Mapped(Split(path)))
  }

  /** The parameter names the document declares, in order. */
  function ParameterNames(segs: seq<string>): seq<string> {
    if segs == [] then []
    else (if IsParameter(segs[0]) then [segs[0][1..]] else []) + ParameterNames(segs[1..])
  }

  function PathParameters(path: string): seq<string> {
    ParameterNames(Split(path))
  }

  /** Where `c` first occurs in `s`, or the length of `s`. */
  function IndexOf(s: string, c: char): (n: nat)
    ensures n <= |s| && (n < |s| ==> s[n] == c) && forall k :: 0 <= k < n ==> s[k] != c
  {
    if s == "" || s[0] == c then 0 else IndexOf(s[1..], c) + 1
  }

  /** The template expressions of one segment, left to right: each opening brace with the first
      closing brace after it.  An expression may take up any part of a segment. */
  function Scan(s: string): (names: seq<string>) {
    var i := IndexOf(s, '{');
    if i == |s| then []
    else
      var rest := s[i + 1..];
      var j := IndexOf(rest, '}');
      if j == |rest| then [] else [rest[..j]] + Scan(rest[j + 1..])
  }

  function ScanAll(segs: seq<string>): seq<string> {
    if segs == [] then [] else Scan(segs[0]) + ScanAll(segs[1..])
  }

  /** The names a reader of the template finds between braces, in order. */
  function TemplateNames(template: string): seq<string> {
    ScanAll(Split(template))
  }

  /** No route segment is itself written like a translated parameter. */
  predicate NoLiteralTemplate(segs: seq<string>) {
    forall i :: 0 <= i < |segs| ==> !IsTemplate(segs[i])
  }

  ghost predicate Braced(seg: string) {
    exists i, j :: 0 <= i < j < |seg| && seg[i] == '{' && seg[j] == '}'
  }

  /** A literal segment has no opening brace with a closing one after it, and a parameter's name no
      closing brace. */
  ghost predicate PlainSegment(seg: string) {
    if IsParameter(seg) then '}' !in seg[1..] else !Braced(seg)
  }

  lemma OpenApiSegments(path: string)
    ensures Split(OpenApiPath(path)) == Mapped(Split(path))
  {
    SplitHasNoSlash(path);
    forall i | 0 <= i < |Split(path)| ensures '/' !in Mapped(Split(path))[i] {
      assert '/' !in Split(path)[i];
    }
    SplitOfJoin(Mapped(Split(path)));
  }

  lemma BracesMakeTemplate(name: string)
    ensures IsTemplate(Template(name)) && Template(name)[1..|Template(name)| - 1] == name
  {
  }

  lemma BraceFound(seg: string, a: nat, b: nat)
    requires a < b < |seg| && seg[a] == '{' && seg[b] == '}'
    ensures Scan(seg) != []
  {
    var i := IndexOf(seg, '{');
    var rest := seg[i + 1..];
    assert rest[b - i - 1] == '}';
  }

  lemma ScanLiteral(seg: string)
    ensures Scan(seg) == [] <==> !Braced(seg)
  {
    var i := IndexOf(seg, '{');
    if i < |seg| {
      var rest := seg[i + 1..];
      var j := IndexOf(rest, '}');
      if j < |rest| {
        assert seg[i] == '{' && seg[i + 1 + j] == '}';
      }
    }
    if Braced(seg) {
      var a, b :| 0 <= a < b < |seg| && seg[a] == '{' && seg[b] == '}';
      BraceFound(seg, a, b);
    }
  }

  /** The first brace pair of a text, and what follows it. */
  lemma ClosedAt(rest: string, name: string, more: string)
    requires rest == name + "}" + more && '}' !in name
    ensures IndexOf(rest, '}') == |name| && rest[..|name|] == name && rest[|name| + 1..] == more
  {
    assert rest[|name|] == '}';
    assert forall k :: 0 <= k < |name| ==> rest[k] == name[k] && name[k] in name;
  }

  lemma OpenedAt(s: string, before: string, rest: string)
    requires s == before + "{" + rest && '{' !in before
    ensures IndexOf(s, '{') == |before| < |s| && s[|before| + 1..] == rest
  {
    assert s[|before|] == '{';
    assert forall k :: 0 <= k < |before| ==> s[k] == before[k] && before[k] in before;
  }

  lemma ScanOne(s: string, before: string, name: string, more: string)
    requires s == before + "{" + name + "}" + more && '{' !in before && '}' !in name
    ensures Scan(s) == [name] + Scan(more)
  {
    assert s[|before|] == '{';
    OpenedAt(s, before, name + "}" + more);
    ClosedAt(s[|before| + 1..], name, more);
  }

  /** A translated parameter reads back as its name, unless the name closes the braces early. */
  lemma ScanParameter(name: string)
    ensures Scan(Template(name)) != []
    ensures Scan(Template(name)) == [name] <==> '}' !in name
  {
    var t := Template(name);
    var rest := t[1..];
    assert t[0] == '{' && rest == name + "}" && rest[|name|] == '}';
    var j := IndexOf(rest, '}');
    if '}' in name {
      var k :| 0 <= k < |name| && name[k] == '}';
      assert rest[k] == '}' && j < |name|;
      assert Scan(t)[0] == rest[..j];
    } else {
      ClosedAt(rest, name, "");
    }
  }

  /** What one segment adds to the scanned names, against what it adds to the declared ones. */
  lemma ScanSegment(seg: string)
    ensures var declared := if IsParameter(seg) then [seg[1..]] else [];
      |Scan(OpenApiSegment(seg))| >= |declared| && (Scan(OpenApiSegment(seg)) == declared <==> PlainSegment(seg))
  {
    if IsParameter(seg) {
      ScanParameter(seg[1..]);
    } else {
      ScanLiteral(seg);
    }
  }

  /** When neither part is shorter than its counterpart, the whole is equal only part by part. */
  lemma SameSplit<T>(a: seq<T>, b: seq<T>, c: seq<T>, d: seq<T>)
    requires |a| >= |c| && |b| >= |d|
    ensures a + b == c + d <==> a == c && b == d
  {
    if a + b == c + d {
      assert |a| == |c|;
      assert a == (a + b)[..|a|] && c == (c + d)[..|c|];
      assert b == (a + b)[|a|..] && d == (c + d)[|c|..];
    }
  }

  ghost predicate AllPlain(segs: seq<string>) {
    forall i :: 0 <= i < |segs| ==> PlainSegment(segs[i])
  }

  lemma AllPlainCons(segs: seq<string>)
    requires segs != []
    ensures AllPlain(segs) <==> PlainSegment(segs[0]) && AllPlain(segs[1..])
  {
    assert segs == [segs[0]] + segs[1..];
  }

  lemma MappedCons(segs: seq<string>)
    requires segs != []
    ensures Mapped(segs) != [] && Mapped(segs)[0] == OpenApiSegment(segs[0]) && Mapped(segs)[1..] == Mapped(segs[1..])
  {
  }

  lemma {:induction false} NamesMatch(segs: seq<string>)
    ensures |ScanAll(Mapped(segs))| >= |ParameterNames(segs)|
    ensures ScanAll(Mapped(segs)) == ParameterNames(segs) <==> AllPlain(segs)
  {
    if segs != [] {
      var head, tail := segs[0], segs[1..];
      var declared := if IsParameter(head) then [head[1..]] else [];
      NamesMatch(tail);
      ScanSegment(head);
      AllPlainCons(segs);
      MappedCons(segs);
      SameSplit(Scan(OpenApiSegment(head)), ScanAll(Mapped(tail)), declared, ParameterNames(tail));
    }
  }

  /** The declared parameters are the names in the template, in order, exactly when the route uses
      braces in no segment of its own and closes none in a parameter's name. */
  lemma ParametersMatchTemplate(path: string)
    ensures TemplateNames(OpenApiPath(path)) == PathParameters(path)
       <==> AllPlain(Split(path))
  {
    OpenApiSegments(path);
    NamesMatch(Split(path));
  }

  /** A path of one segment. */
  lemma OneSegment(seg: string)
    requires '/' !in seg
    ensures PathParameters(seg) == if IsParameter(seg) then [seg[1..]] else []
    ensures TemplateNames(OpenApiPath(seg)) == Scan(OpenApiSegment(seg))
  {
    var segs, out := [seg], [OpenApiSegment(seg)];
    SplitOne(seg);
    SplitOne(OpenApiSegment(seg));
    assert Mapped(segs) == out;
    assert |segs[1..]| == 0 && |out[1..]| == 0;
    assert ParameterNames(segs[1..]) == [] && ScanAll(out[1..]) == [];
  }

  /** Braces inside a literal, as in `a{b}`, are read as a parameter that nobody declares. */
  lemma LiteralBracesMisread(before: string, name: string)
    requires before != "" && before[0] != ':' && '{' !in before && '}' !in name && '/' !in before && '/' !in name
    ensures var path := before + "{" + name + "}" + "";
      PathParameters(path) == [] && TemplateNames(OpenApiPath(path)) == [name]
  {
    var literal := before + "{" + name + "}" + "";
    assert literal[0] == before[0];
    OneSegment(literal);
    ScanOne(literal, before, name, "");
  }

  lemma TemplateParts(x: string, y: string)
    ensures Template(x + "}" + ("{" + y)) == "" + "{" + x + "}" + ("" + "{" + y + "}" + "")
  {
  }

  /** A closing brace inside a parameter's name, as in `:a}{b`, makes two parameters of one. */
  lemma ParameterBracesMisread(x: string, y: string)
    requires '}' !in x && '}' !in y && '/' !in x && '/' !in y
    ensures var name := x + "}" + ("{" + y);
      PathParameters(":" + name) == [name] && TemplateNames(OpenApiPath(":" + name)) == [x, y]
  {
    var name := x + "}" + ("{" + y);
    var rest := "" + "{" + y + "}" + "";
    assert (":" + name)[1..] == name;
    OneSegment(":" + name);
    TemplateParts(x, y);
    ScanOne(Template(name), "", x, rest);
    ScanOne(rest, "", y, "");
  }

  lemma ExampleStrings()
    ensures "a" + "{" + "b" + "}" + "" == "a{b}"
    ensures ":" + ("a" + "}" + ("{" + "b")) == ":a}{b" && "a" + "}" + ("{" + "b") == "a}{b"
  {
  }

  /** The two at one input each. */
  lemma BracesMisread()
    ensures PathParameters("a{b}") == [] && TemplateNames(OpenApiPath("a{b}")) == ["b"]
    ensures PathParameters(":a}{b") == ["a}{b"] && TemplateNames(OpenApiPath(":a}{b")) == ["a", "b"]
  {
    ExampleStrings();
    LiteralBracesMisread("a", "b");
    ParameterBracesMisread("a", "b");
  }

  lemma SegmentInjective(x: string, y: string)
    requires !IsTemplate(x) && !IsTemplate(y) && OpenApiSegment(x) == OpenApiSegment(y)
    ensures x == y
  {
    BracesMakeTemplate(if IsParameter(x) then x[1..] else "");
    BracesMakeTemplate(if IsParameter(y) then y[1..] else "");
    if IsParameter(x) && IsParameter(y) {
      assert x == ":" + x[1..] && y == ":" + y[1..];
    }
  }

  lemma LiteralsStay(segs: seq<string>)
    requires forall i :: 0 <= i < |segs| ==> !IsParameter(segs[i])
    ensures Mapped(segs) == segs
  {
  }

  lemma {:induction false} ParametersOfSegments(segs: seq<string>)
    ensures ParameterNames(segs) == [] <==> forall i :: 0 <= i < |segs| ==> !IsParameter(segs[i])
  {
    if segs != [] {
      ParametersOfSegments(segs[1..]);
      assert segs == [segs[0]] + segs[1..];
    }
  }

  /** A route without parameters is its own template. */
  lemma LiteralPathIsItsTemplate(path: string)
    requires PathParameters(path) == []
    ensures OpenApiPath(path) == path
  {
    ParametersOfSegments(Split(path));
    LiteralsStay(Split(path));
    JoinOfSplit(path);
  }

  /** A route segment written like a template collides with the parameter of that name. */
  lemma LiteralTemplateCollides(name: string)
    requires '/' !in name
    ensures OpenApiPath(":" + name) == OpenApiPath(Template(name)) && ":" + name != Template(name)
  {
    assert (":" + name)[0] == ':' && (":" + name)[1..] == name && Template(name)[0] == '{';
    SplitOne(":" + name);
    SplitOne(Template(name));
    assert Mapped([":" + name]) == [Template(name)] && Mapped([Template(name)]) == [Template(name)];
  }

  /** Different routes have different templates, unless a segment is written like one. */
  lemma OpenApiInjective(p: string, q: string)
    requires NoLiteralTemplate(Split(p)) && NoLiteralTemplate(Split(q)) && OpenApiPath(p) == OpenApiPath(q)
    ensures p == q
  {
    OpenApiSegments(p);
    OpenApiSegments(q);
    var a, b := Split(p), Split(q);
    forall i | 0 <= i < |a| ensures a[i] == b[i] {
      assert Mapped(a)[i] == Mapped(b)[i];
      SegmentInjective(a[i], b[i]);
    }
    assert a == b;
    JoinOfSplit(p);
    JoinOfSplit(q);
  }

  // ---------------------------------------------------------------- translation and joining

  lemma MappedAppend(a: seq<string>, b: seq<string>)
    ensures Mapped(a + b) == Mapped(a) + Mapped(b)
  {
  }

  lemma {:induction false} JoinAppend(a: seq<string>, b: seq<string>)
    requires |a| > 0 && |b| > 0
    ensures Join(a + b) == Join(a) + "/" + Join(b)
  {
    if |a| == 1 {
      assert (a + b)[1..] == b;
    } else {
      JoinAppend(a[1..], b);
      assert (a + b)[1..] == a[1..] + b;
    }
  }

  lemma OpenApiAtSlash(x: string, y: string)
    ensures OpenApiPath(x + "/" + y) == OpenApiPath(x) + "/" + OpenApiPath(y)
  {
    SplitAtSlash(x, y);
    MappedAppend(Split(x), Split(y));
    JoinAppend(Mapped(Split(x)), Mapped(Split(y)));
  }

  lemma OpenApiEmpty()
    ensures OpenApiPath("") == ""
  {
    assert Mapped([""]) == [""];
  }

  lemma FirstSegment(segs: seq<string>)
    requires |segs| > 0
    ensures segs[0] != "" ==> Join(segs) != "" && Join(segs)[0] == segs[0][0]
    ensures segs[0] == "" && |segs| > 1 ==> Join(segs) != "" && Join(segs)[0] == '/'
    ensures segs == [""] ==> Join(segs) == ""
  {
  }

  lemma {:induction false} LastSegment(segs: seq<string>)
    requires |segs| > 0
    ensures var last := segs[|segs| - 1];
      && (last != "" ==> Join(segs) != "" && Join(segs)[|Join(segs)| - 1] == last[|last| - 1])
      && (last == "" && |segs| > 1 ==> Join(segs) != "" && Join(segs)[|Join(segs)| - 1] == '/')
  {
    if |segs| > 1 { LastSegment(segs[1..]); }
  }

  /** Translation keeps a first or last character that is not a slash from becoming one. */
  lemma OpenApiEnds(s: string)
    requires s != ""
    ensures OpenApiPath(s) != ""
    ensures s[0] != '/' ==> OpenApiPath(s)[0] != '/'
    ensures s[|s| - 1] != '/' ==> OpenApiPath(s)[|OpenApiPath(s)| - 1] != '/'
  {
    var segs := Split(s);
    var out := Mapped(segs);
    SplitHasNoSlash(s);
    JoinOfSplit(s);
    FirstSegment(segs);
    FirstSegment(out);
    LastSegment(segs);
    LastSegment(out);
    assert out[0] == OpenApiSegment(segs[0]) && out[|out| - 1] == OpenApiSegment(segs[|segs| - 1]);
    assert '/' !in segs[|segs| - 1] && '/' !in segs[0];
  }

  lemma {:induction false} OpenApiTrimEnd(s: string)
    ensures TrimEnd(OpenApiPath(s)) == OpenApiPath(TrimEnd(s))
  {
    OpenApiEmpty();
    if s != "" {
      var last := |s| - 1;
      OpenApiEnds(s);
      if s[last] == '/' {
        OpenApiTrimEnd(s[..last]);
        OpenApiAtSlash(s[..last], "");
        assert s == s[..last] + "/" + "";
        assert OpenApiPath(s)[..|OpenApiPath(s)| - 1] == OpenApiPath(s[..last]);
      }
    }
  }

  lemma {:induction false} OpenApiTrimStart(s: string)
    ensures TrimStart(OpenApiPath(s)) == OpenApiPath(TrimStart(s))
  {
    OpenApiEmpty();
    if s != "" {
      OpenApiEnds(s);
      if s[0] == '/' {
        OpenApiTrimStart(s[1..]);
        OpenApiAtSlash("", s[1..]);
        assert s == "" + "/" + s[1..];
        assert OpenApiPath(s)[1..] == OpenApiPath(s[1..]);
      }
    }
  }

  /** Translating the joined path is joining the translated parts. */
  lemma OpenApiDistributes(p: string, r: string)
    ensures OpenApiPath(JoinPath(p, r)) == JoinPath(OpenApiPath(p), OpenApiPath(r))
  {
    OpenApiTrimEnd(p);
    OpenApiTrimStart(r);
    OpenApiEmpty();
    var x, y := TrimEnd(p), TrimStart(r);
    if x != "" { OpenApiEnds(x); }
    if y != "" { OpenApiEnds(y); }
    OpenApiAtSlash(x, y);
    OpenApiAtSlash("", y);
    assert "" + "/" + y == "/" + y && "" + "/" + "" == "/";
    if x == "" && y == "" {
      assert OpenApiPath("/") == "/";
    }
  }

  // ---------------------------------------------------------------- the document

  datatype Verb = GET | POST | PUT | DELETE | PATCH

  datatype Route = Route(verb: Verb, path: string, handler: string)

  datatype Controller = Controller(version: Option<string>, path: string, routes: seq<Route>)

  datatype Operation = Operation(handler: string, parameters: seq<string>)

  type Document = map<string, map<Verb, Operation>>

  /** Where a route is served: the controller's path joined with its own, behind the version if the
      controller has one. */
  ghost function ServedAt(c: Controller, r: Route): string {
    match c.version
    case Some(v) => JoinPath("/v" + v, JoinPath(c.path, r.path))
    case None => JoinPath(c.path, r.path)
  }

  predicate Documented(doc: Document, full: string, r: Route) {
    && OpenApiPath(full) in doc && r.verb in doc[OpenApiPath(full)]
    && doc[OpenApiPath(full)][r.verb] == Operation(r.handler, PathParameters(full))
  }

  /** Some route asks for this entry. */
  ghost predicate Requested(cs: seq<Controller>, template: string, verb: Verb, op: Operation) {
    exists c, r :: c in cs && r in c.routes && OpenApiPath(ServedAt(c, r)) == template && r.verb == verb
                   && op == Operation(r.handler, PathParameters(ServedAt(c, r)))
  }

  /** No two routes of the controllers share a verb and a full path, and none is written like a template. */
  ghost predicate DistinctRoutes(cs: seq<Controller>) {
    && (forall c, r :: c in cs && r in c.routes ==> NoLiteralTemplate(Split(ServedAt(c, r))))
    && forall c, r, d, s ::
         (c in cs && r in c.routes && d in cs && s in d.routes && ServedAt(c, r) == ServedAt(d, s) && r.verb == s.verb
          ==> r.handler == s.handler)
  }

  function Inserted(doc: Document, template: string, verb: Verb, op: Operation): Document {
    doc[template := (if template in doc then doc[template] else map[])[verb := op]]
  }

  ghost predicate Sound(doc: Document, cs: seq<Controller>) {
    forall t, v :: t in doc && v in doc[t] ==> Requested(cs, t, v, doc[t][v])
  }

  ghost predicate AllDocumented(doc: Document, c: Controller, n: nat)
    requires n <= |c.routes|
  {
    forall i :: 0 <= i < n ==> Documented(doc, ServedAt(c, c.routes[i]), c.routes[i])
  }

  ghost function Entered(doc: Document, c: Controller, r: Route): Document {
    Inserted(doc, OpenApiPath(ServedAt(c, r)), r.verb, Operation(r.handler, PathParameters(ServedAt(c, r))))
  }

  /** The first `i` controllers are documented, and the first `n` routes of the next one. */
  ghost predicate DocumentedUpTo(doc: Document, cs: seq<Controller>, i: nat, n: nat)
    requires i < |cs| && n <= |cs[i].routes|
  {
    (forall j :: 0 <= j < i ==> AllDocumented(doc, cs[j], |cs[j].routes|)) && AllDocumented(doc, cs[i], n)
  }

  /** Entering one route overwrites no other: distinct routes have distinct templates. */
  lemma KeepsDocumented(cs: seq<Controller>, doc: Document, c: Controller, r: Route, d: Controller, n: nat)
    requires DistinctRoutes(cs) && c in cs && r in c.routes && d in cs
    requires n <= |d.routes| && AllDocumented(doc, d, n)
    ensures AllDocumented(Entered(doc, c, r), d, n)
  {
    forall i | 0 <= i < n ensures Documented(Entered(doc, c, r), ServedAt(d, d.routes[i]), d.routes[i]) {
      var s := d.routes[i];
      assert s in d.routes;
      if OpenApiPath(ServedAt(c, r)) == OpenApiPath(ServedAt(d, s)) {
        OpenApiInjective(ServedAt(c, r), ServedAt(d, s));
      }
    }
  }

  lemma DocumentedStep(cs: seq<Controller>, doc: Document, i: nat, n: nat)
    requires DistinctRoutes(cs) && i < |cs| && n < |cs[i].routes| && DocumentedUpTo(doc, cs, i, n)
    ensures DocumentedUpTo(Entered(doc, cs[i], cs[i].routes[n]), cs, i, n + 1)
  {
    var c, r := cs[i], cs[i].routes[n];
    forall j | 0 <= j < i ensures AllDocumented(Entered(doc, c, r), cs[j], |cs[j].routes|) {
      KeepsDocumented(cs, doc, c, r, cs[j], |cs[j].routes|);
    }
    KeepsDocumented(cs, doc, c, r, c, n);
  }

  lemma SoundStep(cs: seq<Controller>, doc: Document, c: Controller, r: Route)
    requires Sound(doc, cs) && c in cs && r in c.routes
    ensures Sound(Entered(doc, c, r), cs)
  {
    var full := ServedAt(c, r);
    assert Requested(cs, OpenApiPath(full), r.verb, Operation(r.handler, PathParameters(full)));
  }

  /** Position (`j`, `m`) names a route, in a listing of controllers. */
  ghost predicate IsRoute(cs: seq<Controller>, j: nat, m: nat) {
    j < |cs| && m < |cs[j].routes|
  }

  predicate Precedes(j: nat, m: nat, i: nat, n: nat) {
    j < i || (j == i && m < n)
  }

  /** Both routes are documented under one template and verb. */
  ghost predicate SameEntry(c: Controller, r: Route, d: Controller, s: Route) {
    OpenApiPath(ServedAt(c, r)) == OpenApiPath(ServedAt(d, s)) && r.verb == s.verb
  }

  /** The route at (`j`, `m`) is the last of its entry among those before (`i`, `n`). */
  ghost predicate LastBefore(cs: seq<Controller>, j: nat, m: nat, i: nat, n: nat) {
    && IsRoute(cs, j, m) && Precedes(j, m, i, n)
    && forall k: nat, l: nat :: IsRoute(cs, k, l) && Precedes(j, m, k, l) && Precedes(k, l, i, n) ==>
         !SameEntry(cs[j], cs[j].routes[m], cs[k], cs[k].routes[l])
  }

  ghost predicate LastDocumented(doc: Document, cs: seq<Controller>, i: nat, n: nat) {
    forall j: nat, m: nat :: LastBefore(cs, j, m, i, n) ==>
      Documented(doc, ServedAt(cs[j], cs[j].routes[m]), cs[j].routes[m])
  }

  lemma LastStep(cs: seq<Controller>, doc: Document, i: nat, n: nat)
    requires IsRoute(cs, i, n) && LastDocumented(doc, cs, i, n)
    ensures LastDocumented(Entered(doc, cs[i], cs[i].routes[n]), cs, i, n + 1)
  {
    var next := Entered(doc, cs[i], cs[i].routes[n]);
    forall j: nat, m: nat | LastBefore(cs, j, m, i, n + 1)
      ensures Documented(next, ServedAt(cs[j], cs[j].routes[m]), cs[j].routes[m])
    {
      if j != i || m != n {
        assert Precedes(j, m, i, n) && !SameEntry(cs[j], cs[j].routes[m], cs[i], cs[i].routes[n]);
        assert LastBefore(cs, j, m, i, n);
      }
    }
  }

  /** What the loop has established once it has come to position (`i`, `n`). */
  ghost predicate DocumentSoFar(doc: Document, cs: seq<Controller>, i: nat, n: nat)
    requires i < |cs| ==> n <= |cs[i].routes|
    requires i <= |cs|
  {
    && Sound(doc, cs) && LastDocumented(doc, cs, i, n)
    && (DistinctRoutes(cs) ==>
          if i < |cs| then DocumentedUpTo(doc, cs, i, n)
          else forall j :: 0 <= j < |cs| ==> AllDocumented(doc, cs[j], |cs[j].routes|))
  }

  lemma RouteEntered(cs: seq<Controller>, doc: Document, i: nat, n: nat)
    requires IsRoute(cs, i, n) && DocumentSoFar(doc, cs, i, n)
    ensures DocumentSoFar(Entered(doc, cs[i], cs[i].routes[n]), cs, i, n + 1)
  {
    SoundStep(cs, doc, cs[i], cs[i].routes[n]);
    LastStep(cs, doc, i, n);
    if DistinctRoutes(cs) { DocumentedStep(cs, doc, i, n); }
  }

  lemma LastNext(cs: seq<Controller>, doc: Document, i: nat)
    requires i < |cs| && LastDocumented(doc, cs, i, |cs[i].routes|)
    ensures LastDocumented(doc, cs, i + 1, 0)
  {
    forall j: nat, m: nat | LastBefore(cs, j, m, i + 1, 0)
      ensures Documented(doc, ServedAt(cs[j], cs[j].routes[m]), cs[j].routes[m])
    {
      assert LastBefore(cs, j, m, i, |cs[i].routes|);
    }
  }

  lemma NextController(cs: seq<Controller>, doc: Document, i: nat)
    requires i < |cs| && DocumentSoFar(doc, cs, i, |cs[i].routes|)
    ensures DocumentSoFar(doc, cs, i + 1, 0)
  {
    LastNext(cs, doc, i);
  }

  /** The path loop of `build_document`: every entry comes from a route; of the routes that share a
      template and a verb the last one is documented; and with distinct routes every route has its
      entry, its own handler and its own parameters. */
  method BuildPaths(cs: seq<Controller>) returns (doc: Document)
    ensures Sound(doc, cs)
    ensures LastDocumented(doc, cs, |cs|, 0)
    ensures DistinctRoutes(cs) ==> forall i :: 0 <= i < |cs| ==> AllDocumented(doc, cs[i], |cs[i].routes|)
  {
    doc := map[];
    for i := 0 to |cs|
      invariant DocumentSoFar(doc, cs, i, 0)
    {
      var c := cs[i];
      for n := 0 to |c.routes|
        invariant DocumentSoFar(doc, cs, i, n)
      {
        var r := c.routes[n];
        var full := JoinPath(VersionPath(c.version, c.path), r.path);
        VersionedRoute(c.version, c.path, r.path);
        RouteEntered(cs, doc, i, n);
        doc := Inserted(doc, OpenApiPath(full), r.verb, Operation(r.handler, PathParameters(full)));
      }
      NextController(cs, doc, i);
    }
  }
}
