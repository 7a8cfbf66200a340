/**
 * Well-known text for line strings (OGC Simple Features Access, ISO
 * 19125-1, clause 7): the web checker writes `LINESTRING(x y, x y, ...)`
 * from `[lng, lat]` pairs, and the app's power-line query reads such text
 * back into `[lat, lng]` pairs. Number rendering (`show`, a template
 * literal) and reading (`read`, `Number`) belong to the JavaScript runtime
 * and are parameters.
 */
module Wkt {
  import opened Wrappers
  import opened Text
  import Query
  import opened Geometry

  const Head: string := "LINESTRING("

  /** One vertex as written: x, a space, y. */
  function VertexText(c: Pair, show: real -> string): string {
    show(c.0) + " " + show(c.1)
  }

  /** The vertex texts of a line, in order. */
  function Vertices(coords: seq<Pair>, show: real -> string): (r: seq<string>)
    ensures |r| == |coords| && forall k :: 0 <= k < |coords| ==> r[k] == VertexText(coords[k], show)
  {
    Query.Map(coords, c => VertexText(c, show))
  }

  /** The WKT of a line from its `[x, y]` pairs. */
  function BuildLineString(coords: seq<Pair>, show: real -> string): (r: string)
    ensures IsPrefix(Head, r) && r[|r| - 1] == ')'
  {
    var r := Head + Join(Vertices(coords, show), ", ") + ")";
    assert r[..|Head|] == Head;
    r
  }

  /** JavaScript `s.replace(t, u)` with a string pattern: only the first occurrence is replaced. */
  function ReplaceFirst(s: string, t: string, u: string): (r: string)
    ensures IndexOf(s, t).None? ==> r == s
    ensures IndexOf(s, t).Some? ==> var i := IndexOf(s, t).value; r == s[..i] + u + s[i + |t|..]
  {
    match IndexOf(s, t)
    case None => s
    case Some(i) => s[..i] + u + s[i + |t|..]
  }

  /** One `"lng lat"` piece read as `[lat, lng]`; fewer than two numbers give no pair. */
  function ParseVertex(piece: string, read: string -> real): (r: Option<Pair>)
    ensures r.Some? <==> |Split(Trim(piece), " ")| >= 2
    ensures r.Some? ==> r.value == (read(Split(Trim(piece), " ")[1]), read(Split(Trim(piece), " ")[0]))
  {
    var nums := Split(Trim(piece), " ");
    if |nums| >= 2 then Some((read(nums[1]), read(nums[0]))) else None
  }

  function ParseVertices(pieces: seq<string>, read: string -> real): (r: Option<seq<Pair>>)
    ensures r.Some? <==> forall i :: 0 <= i < |pieces| ==> ParseVertex(pieces[i], read).Some?
    ensures r.Some? ==> |r.value| == |pieces|
                        && forall i :: 0 <= i < |pieces| ==> Some(r.value[i]) == ParseVertex(pieces[i], read)
  {
    if |pieces| == 0 then Some([])
    else
      assert forall i :: 1 <= i < |pieces| ==> pieces[i] == pieces[1..][i - 1];
      match ParseVertex(pieces[0], read)
      case None => None
      case Some(v) =>
        match ParseVertices(pieces[1..], read)
        case None => None
        case Some(vs) => Some([v] + vs)
  }

  /** The body between the parentheses, taken as the power-line query does. */
  function Body(wkt: string): string {
    ReplaceFirst(ReplaceFirst(wkt, Head, ""), ")", "")
  }

  /**
   * `transformItem` of the power-line query: strip the first `LINESTRING(`
   * and the first `)`, split on `", "`, and read each piece as `[lat, lng]`.
   */
  function ParseLineString(wkt: string, read: string -> real): (r: Option<seq<Pair>>)
    ensures r.Some? ==> |r.value| == |Split(Body(wkt), ", ")|
  {
    ParseVertices(Split(Body(wkt), ", "), read)
  }

  /** A rendered number that the text format can carry: non-empty, no space, comma, parenthesis or whitespace. */
  predicate Plain(t: string) {
    |t| > 0 && forall i :: 0 <= i < |t| ==> t[i] != ' ' && t[i] != ',' && t[i] != ')' && t[i] != '(' && !IsWhitespace(t[i])
  }

  lemma {:induction false} TrimPlainVertex(a: string, b: string)
    requires Plain(a) && Plain(b)
    ensures Trim(a + " " + b) == a + " " + b
  {
    var s := a + " " + b;
    assert s[0] == a[0];
    assert s[|s| - 1] == b[|b| - 1];
  }

  lemma {:induction false} SplitPlainVertex(a: string, b: string)
    requires Plain(a) && Plain(b)
    ensures Split(a + " " + b, " ") == [a, b]
  {
    var sep := " ";
    assert sep[0] == ' ';
    assert Join([a, b], sep) == a + " " + b by {
      assert [a, b][1..] == [b];
    }
    SplitJoin([a, b], sep);
  }

  lemma {:induction false} ShownIsPlain(show: real -> string, x: real)
    requires forall y :: Plain(show(y))
    ensures Plain(show(x))
  {
  }

  lemma {:induction false} ReadInvertsShow(show: real -> string, read: string -> real, x: real)
    requires forall y :: read(show(y)) == y
    ensures read(show(x)) == x
  {
  }

  lemma {:induction false} PlainVertexText(c: Pair, show: real -> string)
    requires forall x :: Plain(show(x))
    ensures '(' !in VertexText(c, show) && ')' !in VertexText(c, show) && ',' !in VertexText(c, show)
  {
    ShownIsPlain(show, c.0);
    ShownIsPlain(show, c.1);
    var a := show(c.0);
    var b := show(c.1);
    var t := a + " " + b;
    forall i | 0 <= i < |t| ensures t[i] != '(' && t[i] != ')' && t[i] != ',' {
      if i < |a| {
        assert t[i] == a[i];
      } else if i > |a| {
        assert t[i] == b[i - |a| - 1];
      }
    }
  }

  lemma {:induction false} JoinAvoids(parts: seq<string>, sep: string, c: char)
    requires c !in sep
    requires forall k :: 0 <= k < |parts| ==> c !in parts[k]
    ensures c !in Join(parts, sep)
    decreases |parts|
  {
    if |parts| > 1 {
      JoinAvoids(parts[1..], sep, c);
    }
  }

  /**
   * Reading back what the web checker writes gives the same vertices with
   * their axes swapped: `[lng, lat]` in, `[lat, lng]` out, one per vertex, when
   * the number text is plain and `read` inverts `show`.
   */
  lemma {:induction false} ParseBuildSwaps(coords: seq<Pair>, show: real -> string, read: string -> real)
    requires |coords| >= 1
    requires forall x :: Plain(show(x))
    requires forall x :: read(show(x)) == x
    ensures ParseLineString(BuildLineString(coords, show), read) == Some(SwapAll(coords))
  {
    var pieces := Vertices(coords, show);
    BodyOfBuilt(coords, show);
    var sep := ", ";
    assert sep[0] == ',';
    SplitJoin(pieces, sep);
    ReadVertices(coords, show, read);
  }

  /** Stripping the head and the closing parenthesis of a written line leaves the joined vertex texts. */
  lemma {:induction false} BodyOfBuilt(coords: seq<Pair>, show: real -> string)
    requires forall x :: Plain(show(x))
    ensures Body(BuildLineString(coords, show)) == Join(Vertices(coords, show), ", ")
    ensures forall k :: 0 <= k < |coords| ==> ',' !in Vertices(coords, show)[k]
  {
    var pieces := Vertices(coords, show);
    var joined := Join(pieces, ", ");
    var wkt := BuildLineString(coords, show);
    assert wkt == Head + joined + ")";
    forall k | 0 <= k < |pieces| ensures '(' !in pieces[k] && ')' !in pieces[k] && ',' !in pieces[k] {
      PlainVertexText(coords[k], show);
    }
    JoinAvoids(pieces, ", ", '(');
    JoinAvoids(pieces, ", ", ')');
    // The first `LINESTRING(` is the head itself.
    assert IsPrefix(Head, wkt);
    assert IndexOf(wkt, Head) == Some(0);
    var s1 := ReplaceFirst(wkt, Head, "");
    assert s1 == joined + ")";
    // The first `)` is the closing one.
    var close := ")";
    IndexOfAfterPrefix(joined, ")", close);
    assert s1 == joined + close;
  }

  /** Each written vertex reads back swapped. */
  lemma {:induction false} ReadVertices(coords: seq<Pair>, show: real -> string, read: string -> real)
    requires forall x :: Plain(show(x))
    requires forall x :: read(show(x)) == x
    ensures ParseVertices(Vertices(coords, show), read) == Some(SwapAll(coords))
  {
    var pieces := Vertices(coords, show);
    var parsed := ParseVertices(pieces, read);
    forall i | 0 <= i < |pieces| ensures ParseVertex(pieces[i], read) == Some(Swap(coords[i])) {
      ShownIsPlain(show, coords[i].0);
      ShownIsPlain(show, coords[i].1);
      ReadInvertsShow(show, read, coords[i].0);
      ReadInvertsShow(show, read, coords[i].1);
      var a := show(coords[i].0);
      var b := show(coords[i].1);
      TrimPlainVertex(a, b);
      SplitPlainVertex(a, b);
    }
    assert parsed.Some?;
    assert parsed.value == SwapAll(coords);
  }
}
