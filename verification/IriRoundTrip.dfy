/** Round trips between the printer and the parser of `src/iri.c`, with the exact conditions under which they hold. */
module IriRoundTrip {
  import opened IriSpec
  import opened Options

  /** The record can be printed, and parsing the text into a fresh object gives the record back. */
  ghost predicate RoundTrips(f: Fields) {
    Printable(f) && Parse(Render(f), BLANK) == (true, f)
  }

  ghost predicate Avoids(t: string, stops: string) {
    forall i | 0 <= i < |t| :: t[i] !in stops
  }

  ghost predicate OptAvoids(o: Option<string>, stops: string) {
    o.Some? ==> Avoids(o.value, stops)
  }

  /** ALPHA followed by letters, digits, `+`, `-` and `.` (section 3.1 of RFC 3986). */
  ghost predicate SchemeShape(x: string) {
    x != [] && IsAlpha(x[0]) && forall i | 0 <= i < |x| :: IsSchemeChar(x[i])
  }

  // ---------------------------------------------------------------- scanning

  lemma {:induction false} SpanIs(t: string, stops: string, n: nat)
    requires n <= |t| && Avoids(t[..n], stops) && (n < |t| ==> t[n] in stops)
    ensures Span(t, stops) == n
  {
    assert forall i | 0 <= i < n :: t[i] == t[..n][i];
    assert Span(t, stops) >= n;
  }

  lemma {:induction false} SpanSkip(a: string, b: string, stops: string)
    requires Avoids(a, stops)
    ensures Span(a + b, stops) == |a| + Span(b, stops)
  {
    if a == [] {
      assert a + b == b;
    } else {
      SpanSkip(a[1..], b, stops);
      assert (a + b)[1..] == a[1..] + b && (a + b)[0] == a[0];
      assert forall i | 0 <= i < |a[1..]| :: a[1..][i] == a[i + 1];
    }
  }

  lemma {:induction false} SpanAll(t: string, stops: string)
    ensures Span(t, stops) == |t| <==> Avoids(t, stops)
  {}

  lemma {:induction false} SpanFront(a: string, c: char, b: string, stops: string)
    requires Avoids(a, stops) && c in stops
    ensures Span(a + ([c] + b), stops) == |a|
  {
    SpanSkip(a, [c] + b, stops);
  }

  lemma {:induction false} AvoidsConcat(a: string, b: string, stops: string)
    ensures Avoids(a + b, stops) <==> Avoids(a, stops) && Avoids(b, stops)
  {
    if Avoids(a + b, stops) {
      assert forall i | 0 <= i < |a| :: (a + b)[i] == a[i];
      assert forall i | 0 <= i < |b| :: (a + b)[|a| + i] == b[i];
    }
  }

  // ---------------------------------------------------------------- the scheme

  lemma {:induction false} SchemeRunSkip(x: string, rest: string)
    requires forall i | 0 <= i < |x| :: IsSchemeChar(x[i])
    ensures SchemeRun(x + (":" + rest)) == |x|
  {
    var t := x + (":" + rest);
    if x != [] {
      SchemeRunSkip(x[1..], rest);
      assert t[1..] == x[1..] + (":" + rest);
      assert forall i | 0 <= i < |x[1..]| :: x[1..][i] == x[i + 1];
    }
  }

  lemma {:induction false} ParseAfterScheme(x: string, rest: string, f: Fields)
    requires SchemeShape(x)
    ensures Parse(x + (":" + rest), f) == ParseRest(rest, f.(scheme := Some(x)))
  {
    var t := x + (":" + rest);
    SchemeRunSkip(x, rest);
    assert t[|x| + 1..] == rest && t[..|x|] == x && t[0] == x[0];
  }

  // ---------------------------------------------------------------- query and fragment

  function Tail(query: Option<string>, fragment: Option<string>): (t: string) {
    Prefixed('?', query) + Prefixed('#', fragment)
  }

  /** `a` and the parts after it are told apart by the first `?` and the first `#` behind it. */
  ghost predicate Separable(a: string, query: Option<string>, fragment: Option<string>) {
    && Avoids(a, "?") && OptAvoids(query, "#")
    && (query.None? ==> Avoids(a, "#") && OptAvoids(fragment, "?"))
  }

  lemma {:induction false} TailForms(query: Option<string>, fragment: Option<string>)
    ensures query.Some? ==> Tail(query, fragment) == ['?'] + (query.value + Prefixed('#', fragment))
    ensures query.None? && fragment.Some? ==> Tail(query, fragment) == ['#'] + fragment.value
    ensures query.None? && fragment.None? ==> Tail(query, fragment) == []
  {}

  lemma {:induction false} Halves(a: string, c: char, b: string)
    ensures (a + ([c] + b))[..|a|] == a && (a + ([c] + b))[|a| + 1..] == b
  {}

  lemma {:induction false} TailSpansQuery(a: string, query: Option<string>, fragment: Option<string>)
    requires Avoids(a, "?")
    ensures query.Some? ==> Span(a + Tail(query, fragment), "?") == |a|
    ensures query.None? && OptAvoids(fragment, "?") ==>
              Span(a + Tail(query, fragment), "?") == |a + Tail(query, fragment)|
  {
    TailForms(query, fragment);
    if query.Some? {
      SpanFront(a, '?', query.value + Prefixed('#', fragment), "?");
    } else if OptAvoids(fragment, "?") {
      if fragment.Some? {
        AvoidsConcat(['#'], fragment.value, "?");
      }
      AvoidsConcat(a, Tail(query, fragment), "?");
      SpanAll(a + Tail(query, fragment), "?");
    }
  }

  lemma {:induction false} TailSpansFragment(a: string, fragment: Option<string>)
    requires Avoids(a, "#")
    ensures Span(a + Tail(None, fragment), "#") == if fragment.Some? then |a| else |a + Tail(None, fragment)|
  {
    TailForms(None, fragment);
    if fragment.Some? {
      SpanFront(a, '#', fragment.value, "#");
    } else {
      assert a + [] == a;
      SpanAll(a, "#");
    }
  }

  lemma {:induction false} TailSpans(a: string, query: Option<string>, fragment: Option<string>)
    requires Separable(a, query, fragment)
    ensures var t := a + Tail(query, fragment);
      && Span(t, "?") == (if query.Some? then |a| else |t|)
      && (query.None? ==> Span(t, "#") == if fragment.Some? then |a| else |t|)
  {
    TailSpansQuery(a, query, fragment);
    if query.None? {
      TailSpansFragment(a, fragment);
    }
  }

  lemma {:induction false} ParseTailQuery(a: string, q: string, fragment: Option<string>, f: Fields)
    requires Avoids(a, "?") && Avoids(q, "#") && f.fragment.None?
    ensures ParseTail(a + Tail(Some(q), fragment), f) == f.(query := Some(q), fragment := fragment)
  {
    var t, tail := a + Tail(Some(q), fragment), q + Prefixed('#', fragment);
    TailForms(Some(q), fragment);
    TailSpansQuery(a, Some(q), fragment);
    Halves(a, '?', tail);
    assert t[|a| + 1..] == tail;
    if fragment.Some? {
      SpanFront(q, '#', fragment.value, "#");
      Halves(q, '#', fragment.value);
    } else {
      assert tail == q;
      SpanAll(q, "#");
    }
  }

  lemma {:induction false} ParseTailNoQuery(a: string, fragment: Option<string>, f: Fields)
    requires Separable(a, None, fragment) && f.fragment.None?
    ensures ParseTail(a + Tail(None, fragment), f) == f.(fragment := fragment)
  {
    TailSpans(a, None, fragment);
    TailForms(None, fragment);
    if fragment.Some? {
      Halves(a, '#', fragment.value);
    }
  }

  lemma {:induction false} ParseTailOf(a: string, query: Option<string>, fragment: Option<string>, f: Fields)
    requires Separable(a, query, fragment) && f.query.None? && f.fragment.None?
    ensures ParseTail(a + Tail(query, fragment), f) == f.(query := query, fragment := fragment)
  {
    if query.Some? {
      ParseTailQuery(a, query.value, fragment, f);
    } else {
      ParseTailNoQuery(a, fragment, f);
    }
  }

  lemma {:induction false} Front(a: string, b: string)
    ensures (a + b)[..|a|] == a && (a + b)[|a|..] == b
  {}

  lemma {:induction false} OpaquePathIs(a: string, query: Option<string>, fragment: Option<string>)
    requires Separable(a, query, fragment)
    ensures OpaquePath(a + Tail(query, fragment)) == a
  {
    TailSpans(a, query, fragment);
    Front(a, Tail(query, fragment));
    if query.None? && fragment.None? {
      TailForms(query, fragment);
    }
  }

  lemma {:induction false} Rejoin(t: string, n: nat)
    requires n < |t|
    ensures t == t[..n] + ([t[n]] + t[n + 1..])
  {}

  lemma {:induction false} SpanAvoids(t: string, stops: string)
    ensures Avoids(t[..Span(t, stops)], stops)
  {}

  lemma {:induction false} TailAssembles(front: string, query: string, fragment: Option<string>)
    ensures front + (['?'] + (query + Prefixed('#', fragment))) == front + Tail(Some(query), fragment)
  {
    TailForms(Some(query), fragment);
  }

  /** Every text is a part in front, a query and a fragment. */
  lemma {:induction false} Decompose(rest: string)
    returns (a: string, query: Option<string>, fragment: Option<string>)
    ensures rest == a + Tail(query, fragment) && Separable(a, query, fragment)
  {
    var q := Span(rest, "?");
    SpanAvoids(rest, "?");
    a := rest[..q];
    if q < |rest| {
      var tail := rest[q + 1..];
      assert rest == a + (['?'] + tail) by { Rejoin(rest, q); }
      var value;
      value, fragment := DecomposeQuery(tail);
      query := Some(value);
      TailAssembles(a, value, fragment);
    } else {
      SpanAll(rest, "?");
      query := None;
      a, fragment := DecomposeFragment(rest);
    }
  }

  lemma {:induction false} DecomposeQuery(tail: string) returns (query: string, fragment: Option<string>)
    ensures tail == query + Prefixed('#', fragment) && Avoids(query, "#")
  {
    var g := Span(tail, "#");
    SpanAvoids(tail, "#");
    query, fragment := tail[..g], None;
    if g < |tail| {
      Rejoin(tail, g);
      fragment := Some(tail[g + 1..]);
    }
  }

  lemma {:induction false} DecomposeFragment(rest: string) returns (a: string, fragment: Option<string>)
    requires Avoids(rest, "?")
    ensures rest == a + Tail(None, fragment) && Separable(a, None, fragment)
  {
    a, fragment := DecomposeQuery(rest);
    AvoidsConcat(a, Prefixed('#', fragment), "?");
    if fragment.Some? {
      AvoidsConcat(['#'], fragment.value, "?");
    }
    assert Tail(None, fragment) == Prefixed('#', fragment);
  }

  /** What the parser stores as query and fragment has these shapes, and they account for the text. */
  lemma {:induction false} ParseTailShape(rest: string, f: Fields)
    requires f.query.None? && f.fragment.None?
    ensures var r := ParseTail(rest, f);
      && Separable(OpaquePath(rest), r.query, r.fragment)
      && rest == OpaquePath(rest) + Tail(r.query, r.fragment)
      && r == f.(query := r.query, fragment := r.fragment)
  {
    var a, query, fragment := Decompose(rest);
    ParseTailOf(a, query, fragment, f);
    OpaquePathIs(a, query, fragment);
  }

  // ---------------------------------------------------------------- IRIs without authority

  predicate StartsWithSlashes(t: string) {
    |t| >= 2 && t[0] == '/' && t[1] == '/'
  }

  /** Every accepted string without `//` after the scheme colon is reproduced exactly by printing what was parsed. */
  lemma {:induction false} OpaqueStringReproduced(s: string)
    requires SchemeOk(s) && !StartsWithSlashes(s[SchemeRun(s) + 1..])
    ensures Parse(s, BLANK).0 && Render(Parse(s, BLANK).1) == s
  {
    var p := SchemeRun(s);
    var rest := s[p + 1..];
    var f := BLANK.(scheme := Some(s[..p]));
    ParseTailShape(rest, f);
    Rejoin(s, p);
    assert Parse(s, BLANK) == ParseRest(rest, f);
    OpaqueRendered(rest, f);
  }

  lemma {:induction false} OpaqueRendered(rest: string, f: Fields)
    requires f.scheme.Some? && f == BLANK.(scheme := f.scheme) && !StartsWithSlashes(rest)
    ensures ParseRest(rest, f).0 && Render(ParseRest(rest, f).1) == f.scheme.value + (":" + rest)
  {
    ParseTailShape(rest, f);
    var r := ParseRest(rest, f).1;
    assert RenderRest(r) == OpaquePath(rest) + Tail(r.query, r.fragment);
  }

  /** The records without host that survive. */
  ghost predicate OpaqueShape(f: Fields) {
    && f.scheme.Some? && SchemeShape(f.scheme.value)
    && f.user.None? && f.host.None? && f.port == 0
    && f.path.Some? && !StartsWithSlashes(f.path.value)
    && Separable(f.path.value, f.query, f.fragment)
  }

  lemma {:induction false} OpaqueShapeSuffices(f: Fields)
    requires OpaqueShape(f)
    ensures RoundTrips(f)
  {
    var x, a := f.scheme.value, f.path.value;
    var rest := a + Tail(f.query, f.fragment);
    assert RenderRest(f) == rest;
    assert Render(f) == x + (":" + rest);
    ParseAfterScheme(x, rest, BLANK);
    ParseTailOf(a, f.query, f.fragment, BLANK.(scheme := Some(x)));
    OpaquePathIs(a, f.query, f.fragment);
    assert !StartsWithSlashes(rest);
  }

  /** Whatever is parsed has a proper scheme. */
  lemma {:induction false} ParsedScheme(s: string)
    requires Parse(s, BLANK).0
    ensures SchemeOk(s) && SchemeShape(s[..SchemeRun(s)])
    ensures Parse(s, BLANK) == ParseRest(s[SchemeRun(s) + 1..], BLANK.(scheme := Some(s[..SchemeRun(s)])))
    ensures Parse(s, BLANK).1.scheme == Some(s[..SchemeRun(s)])
  {
    var p := SchemeRun(s);
    assert p > 0 && s[..p][0] == s[0];
    KeepsScheme(s[p + 1..], BLANK.(scheme := Some(s[..p])));
  }

  lemma {:induction false} TailKeepsScheme(rest: string, f: Fields)
    ensures ParseTail(rest, f).scheme == f.scheme
  {}

  lemma {:induction false} AuthorityKeepsScheme(t: string, f: Fields)
    ensures ParseAuthority(t, f).1.scheme == f.scheme
  {}

  lemma {:induction false} KeepsScheme(rest: string, f: Fields)
    ensures ParseRest(rest, f).1.scheme == f.scheme
  {
    TailKeepsScheme(rest, f);
    if StartsWithSlashes(rest) {
      AuthorityKeepsScheme(rest[2..], ParseTail(rest, f));
    }
  }

  lemma {:induction false} AuthorityHasHost(t: string, f: Fields)
    requires ParseAuthority(t, f).0
    ensures ParseAuthority(t, f).1.host == Some(Host(t))
  {}

  lemma {:induction false} OpaqueParsed(rest: string, f: Fields)
    requires f == BLANK.(scheme := f.scheme) && ParseRest(rest, f).0 && ParseRest(rest, f).1.host.None?
    ensures var r := ParseRest(rest, f).1;
      && r.user.None? && r.port == 0 && r.path.Some? && !StartsWithSlashes(r.path.value)
      && Separable(r.path.value, r.query, r.fragment)
  {
    var a, query, fragment := Decompose(rest);
    ParseTailOf(a, query, fragment, f);
    OpaquePathIs(a, query, fragment);
    if StartsWithSlashes(rest) {
      AuthorityHasHost(rest[2..], ParseTail(rest, f));
    }
  }

  lemma {:induction false} OpaqueShapeNeeded(f: Fields)
    requires RoundTrips(f) && f.host.None?
    ensures OpaqueShape(f)
  {
    var s := Render(f);
    ParsedScheme(s);
    hide Render, ParseRest, Parse;
    OpaqueParsed(s[SchemeRun(s) + 1..], BLANK.(scheme := Some(s[..SchemeRun(s)])));
  }

  /** A record without host survives printing and parsing exactly if it has `OpaqueShape`. */
  lemma {:induction false} OpaqueRoundTrip(f: Fields)
    requires f.host.None?
    ensures RoundTrips(f) <==> OpaqueShape(f)
  {
    if OpaqueShape(f) {
      OpaqueShapeSuffices(f);
    }
    if RoundTrips(f) {
      OpaqueShapeNeeded(f);
    }
  }
}
