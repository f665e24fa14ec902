/** Round trips of IRIs with an authority: `src/iri.c`, printed and parsed again.

  The parser looks for every delimiter wherever it first occurs, and so takes some delimiters of one component for
  those of another.  `AuthoritySurvives` says for every record with a host whether it comes back, and `RoundTripExact`
  joins this with the records without host.  `Recoverable` is what remains of it for records whose components hold
  none of the delimiters around them. */
module IriAuthority {
  import opened IriSpec
  import opened IriRoundTrip
  import opened Options

  /** The query starts at the first `?`, the fragment at the first `#` behind it. */
  ghost predicate TailSurvives(f: Fields) {
    && OptAvoids(f.user, "?") && OptAvoids(f.host, "?") && OptAvoids(f.path, "?") && OptAvoids(f.query, "#")
    && (f.query.None? ==>
          OptAvoids(f.user, "#") && OptAvoids(f.host, "#") && OptAvoids(f.path, "#") && OptAvoids(f.fragment, "?"))
  }

  /** The user ends at the first `@`; without a user, any `@` ends one. */
  ghost predicate UserSurvives(f: Fields) {
    if f.user.Some? then Avoids(f.user.value, "@")
    else OptAvoids(f.host, "@") && OptAvoids(f.path, "@") && OptAvoids(f.query, "@") && OptAvoids(f.fragment, "@")
  }

  /** The user holds a slash, and `p` is what stands from there to the next `#`. */
  predicate InUser(user: Option<string>, p: string) {
    user.Some?
    && var v := user.value[Span(user.value, "/")..];
       v != "" && Span(v, "?#") < |v| && v[..Span(v, "?#")] == p
  }

  /** The path starts at the first slash, wherever it stands; without a path, any slash starts one. */
  ghost predicate PathSurvives(f: Fields) {
    if f.path.Some? then
      && f.path.value != "" && f.path.value[0] == '/' && Avoids(f.path.value, "?#")
      && (InUser(f.user, f.path.value) || (OptAvoids(f.user, "/") && OptAvoids(f.host, "/")))
    else
      OptAvoids(f.user, "/") && OptAvoids(f.host, "/") && OptAvoids(f.query, "/") && OptAvoids(f.fragment, "/")
  }

  /** In `h`, no colon comes before the first `#`. */
  predicate NoColonFirst(h: string) {
    Span(h, ":#") < |h| ==> h[Span(h, ":#")] == '#'
  }

  /** The port starts at a colon behind the user, before any `#`, and ends the host.  Without a port, the host is
    taken to end at the query or the fragment, and only then at the path. */
  ghost predicate PortSurvives(f: Fields)
    requires f.host.Some?
  {
    if f.port == 0 then
      && NoColonFirst(f.host.value)
      && (f.path.Some? ==> f.query.None? && f.fragment.None? && Avoids(f.path.value, ":"))
    else
      0 < f.port <= 999 && Avoids(f.host.value, ":#")
  }

  /** The records with a host that survive printing and parsing. */
  ghost predicate AuthoritySurvives(f: Fields) {
    && f.scheme.Some? && SchemeShape(f.scheme.value) && f.host.Some?
    && TailSurvives(f) && UserSurvives(f) && PathSurvives(f) && PortSurvives(f)
  }

  // ---------------------------------------------------------------- the printed text

  /** All that stands before the path. */
  function BeforePath(f: Fields): (t: string) {
    UserText(f) + (Text(f.host) + PortText(f))
  }

  /** All that stands before the query and the fragment. */
  function FrontText(f: Fields): (t: string) {
    BeforePath(f) + Text(f.path)
  }

  /** What stands behind the host and its port. */
  function PathAndTail(f: Fields): (t: string) {
    Text(f.path) + Tail(f.query, f.fragment)
  }

  lemma {:induction false} RestForms(f: Fields)
    ensures RenderRest(f) == FrontText(f) + Tail(f.query, f.fragment)
    ensures RenderRest(f) == BeforePath(f) + PathAndTail(f)
    ensures RenderRest(f) == UserText(f) + (Text(f.host) + (PortText(f) + PathAndTail(f)))
  {}

  lemma {:induction false} AvoidsFewer(t: string, more: string, fewer: string)
    requires Avoids(t, more) && forall i | 0 <= i < |fewer| :: fewer[i] in more
    ensures Avoids(t, fewer)
  {}

  lemma {:induction false} DigitsAvoid(t: string)
    requires forall i | 0 <= i < |t| :: IsDigit(t[i])
    ensures Avoids(t, "@/?#:")
  {}

  lemma {:induction false} PortAvoids(port: int)
    ensures Avoids(Decimal(port), "@/?#:")
  {
    DigitsAvoid(Digits(if port < 0 then -port else port));
    if port < 0 {
      AvoidsConcat("-", Digits(-port), "@/?#:");
    }
  }

  lemma {:induction false} PortTextAvoids(f: Fields, c: char)
    requires c in "@/?#"
    ensures Avoids(PortText(f), [c])
  {
    if f.port != 0 {
      PortAvoids(f.port);
      AvoidsFewer(Decimal(f.port), "@/?#:", [c]);
      AvoidsConcat(":", Decimal(f.port), [c]);
    }
  }

  lemma {:induction false} TailAvoids(query: Option<string>, fragment: Option<string>, c: char)
    requires c != '?' && c != '#'
    ensures Avoids(Tail(query, fragment), [c]) <==> OptAvoids(query, [c]) && OptAvoids(fragment, [c])
  {
    var q, g := Prefixed('?', query), Prefixed('#', fragment);
    AvoidsConcat(q, g, [c]);
    if query.Some? { AvoidsConcat("?", query.value, [c]); }
    if fragment.Some? { AvoidsConcat("#", fragment.value, [c]); }
  }

  lemma {:induction false} TextAvoids(o: Option<string>, stops: string)
    ensures Avoids(Text(o), stops) <==> OptAvoids(o, stops)
  {}

  lemma {:induction false} BeforePathAvoids(f: Fields, c: char)
    requires c in "/?#"
    ensures Avoids(BeforePath(f), [c]) <==> OptAvoids(f.user, [c]) && OptAvoids(f.host, [c])
  {
    PortTextAvoids(f, c);
    if f.user.Some? {
      AvoidsConcat(f.user.value, "@", [c]);
    }
    TextAvoids(f.host, [c]);
    AvoidsConcat(Text(f.host), PortText(f), [c]);
    AvoidsConcat(UserText(f), Text(f.host) + PortText(f), [c]);
  }

  lemma {:induction false} FrontAvoids(f: Fields, c: char)
    requires c in "/?#"
    ensures Avoids(FrontText(f), [c]) <==> OptAvoids(f.user, [c]) && OptAvoids(f.host, [c]) && OptAvoids(f.path, [c])
  {
    BeforePathAvoids(f, c);
    TextAvoids(f.path, [c]);
    AvoidsConcat(BeforePath(f), Text(f.path), [c]);
  }

  // ---------------------------------------------------------------- query and fragment

  lemma {:induction false} TailSurvivesIff(f: Fields)
    ensures TailSurvives(f) <==> Separable("//" + FrontText(f), f.query, f.fragment)
  {
    FrontAvoids(f, '?');
    FrontAvoids(f, '#');
    hide FrontText;
    AvoidsConcat("//", FrontText(f), "?");
    AvoidsConcat("//", FrontText(f), "#");
  }

  lemma {:induction false} SlashedRest(f: Fields)
    ensures "//" + RenderRest(f) == ("//" + FrontText(f)) + Tail(f.query, f.fragment)
  {
    RestForms(f);
    Assoc("//", FrontText(f), Tail(f.query, f.fragment));
  }

  lemma {:induction false} CutTail(a: string, b: string, tail: string)
    requires a + tail == b + tail
    ensures a == b
  {
    assert |a| == |b|;
    Front(a, tail);
    Front(b, tail);
  }

  /** Query and fragment come back exactly under `TailSurvives`. */
  lemma {:induction false} TailIff(f: Fields, g: Fields)
    requires g.query.None? && g.fragment.None?
    ensures var r := ParseTail("//" + RenderRest(f), g);
      r.query == f.query && r.fragment == f.fragment <==> TailSurvives(f)
  {
    var a, rest := "//" + FrontText(f), "//" + RenderRest(f);
    var r := ParseTail(rest, g);
    TailSurvivesIff(f);
    SlashedRest(f);
    hide FrontText, RenderRest, ParseTail, OpaquePath, Tail, TailSurvives, Separable;
    ParseTailShape(rest, g);
    if TailSurvives(f) {
      ParseTailOf(a, f.query, f.fragment, g);
    }
    if r.query == f.query && r.fragment == f.fragment {
      CutTail(a, OpaquePath(rest), Tail(f.query, f.fragment));
    }
  }

  // ---------------------------------------------------------------- the user

  function ParsedUser(t: string): (o: Option<string>) {
    if Span(t, "@") < |t| then Some(t[..Span(t, "@")]) else None
  }

  lemma {:induction false} UserIffSome(t: string, u: string, b: string)
    requires t == u + (['@'] + b)
    ensures ParsedUser(t) == Some(u) <==> Avoids(u, "@")
    ensures Avoids(u, "@") ==> HostStart(t) == |u| + 1
  {
    SpanAvoids(t, "@");
    if Avoids(u, "@") {
      SpanFront(u, '@', b, "@");
      Halves(u, '@', b);
    }
  }

  lemma {:induction false} RestAvoidsAt(f: Fields)
    requires f.user.None?
    ensures Avoids(RenderRest(f), "@") <==> UserSurvives(f)
  {
    RestForms(f);
    PortTextAvoids(f, '@');
    TailAvoids(f.query, f.fragment, '@');
    TextAvoids(f.host, "@");
    TextAvoids(f.path, "@");
    var tail := Tail(f.query, f.fragment);
    AvoidsConcat("", Text(f.host) + (PortText(f) + (Text(f.path) + tail)), "@");
    AvoidsConcat(Text(f.host), PortText(f) + (Text(f.path) + tail), "@");
    AvoidsConcat(PortText(f), Text(f.path) + tail, "@");
    AvoidsConcat(Text(f.path), tail, "@");
  }

  lemma {:induction false} UserForm(f: Fields)
    ensures f.user.Some? ==>
              RenderRest(f) == f.user.value + (['@'] + (Text(f.host) + (PortText(f) + PathAndTail(f))))
    ensures RenderRest(f)[|UserText(f)|..] == Text(f.host) + (PortText(f) + PathAndTail(f))
    ensures |UserText(f)| == if f.user.Some? then |f.user.value| + 1 else 0
  {
    RestForms(f);
    var b := Text(f.host) + (PortText(f) + PathAndTail(f));
    Front(UserText(f), b);
    if f.user.Some? {
      Assoc(f.user.value, ['@'], b);
    }
  }

  lemma {:induction false} ParsedUserNone(t: string)
    ensures ParsedUser(t) == None <==> Avoids(t, "@")
    ensures Avoids(t, "@") ==> HostStart(t) == 0
  {
    SpanAll(t, "@");
  }

  lemma {:induction false} UserSurvivesSome(f: Fields)
    requires f.user.Some?
    ensures UserSurvives(f) <==> Avoids(f.user.value, "@")
  {}

  /** The user comes back exactly under `UserSurvives`; then the port scan starts behind it. */
  lemma {:induction false} UserIff(f: Fields)
    ensures ParsedUser(RenderRest(f)) == f.user <==> UserSurvives(f)
    ensures UserSurvives(f) ==>
              RenderRest(f)[HostStart(RenderRest(f))..] == Text(f.host) + (PortText(f) + PathAndTail(f))
    ensures UserSurvives(f) ==> HostStart(RenderRest(f)) == |UserText(f)|
  {
    hide *;
    UserForm(f);
    if f.user.Some? {
      UserSurvivesSome(f);
      UserIffSome(RenderRest(f), f.user.value, Text(f.host) + (PortText(f) + PathAndTail(f)));
    } else {
      RestAvoidsAt(f);
      ParsedUserNone(RenderRest(f));
    }
  }

  // ---------------------------------------------------------------- the path

  function ParsedPath(t: string): (o: Option<string>) {
    if Span(t, "/") < |t| then Some(PathFrom(t)) else None
  }

  /** A parsed path has the shape of one. */
  lemma {:induction false} PathStarts(t: string)
    requires Span(t, "/") < |t|
    ensures PathFrom(t) != "" && PathFrom(t)[0] == '/' && Avoids(PathFrom(t), "?#")
  {
    var v := t[Span(t, "/")..];
    assert v[0] == '/' && Span(v, "?#") > 0;
    SpanAvoids(v, "?#");
  }

  lemma {:induction false} SpanInside(a: string, b: string, stops: string)
    requires Span(a, stops) < |a|
    ensures Span(a + b, stops) == Span(a, stops)
  {
    var n := Span(a, stops);
    Rejoin(a, n);
    SpanAvoids(a, stops);
    Assoc(a[..n], [a[n]] + a[n + 1..], b);
    Assoc([a[n]], a[n + 1..], b);
    SpanFront(a[..n], a[n], a[n + 1..] + b, stops);
  }

  lemma {:induction false} TailStops(a: string, query: Option<string>, fragment: Option<string>)
    requires Avoids(a, "?#")
    ensures Span(a + Tail(query, fragment), "?#") == |a|
  {
    SpanSkip(a, Tail(query, fragment), "?#");
    TailForms(query, fragment);
  }

  /** No slash stands before the path: then a path is found as it is if it looks like one. */
  lemma {:induction false} PathBehind(a: string, p: string, query: Option<string>, fragment: Option<string>)
    requires Avoids(a, "/")
    ensures ParsedPath(a + (p + Tail(query, fragment))) == Some(p) <==> p != "" && p[0] == '/' && Avoids(p, "?#")
  {
    var b := p + Tail(query, fragment);
    var t := a + b;
    if ParsedPath(t) == Some(p) {
      PathStarts(t);
    }
    if p != "" && p[0] == '/' && Avoids(p, "?#") {
      assert b[0] == '/';
      SpanSkip(a, b, "/");
      Front(a, b);
      TailStops(p, query, fragment);
      Front(p, Tail(query, fragment));
    }
  }

  lemma {:induction false} PathFromSlash(a: string, b: string)
    requires Span(a, "/") < |a|
    ensures var c := a[Span(a, "/")..];
      ParsedPath(a + b) == Some((c + b)[..Span(c + b, "?#")])
  {
    SpanInside(a, b, "/");
    assert (a + b)[Span(a, "/")..] == a[Span(a, "/")..] + b;
  }

  lemma {:induction false} CutInside(c: string, b: string, stops: string)
    requires Span(c, stops) < |c|
    ensures (c + b)[..Span(c + b, stops)] == c[..Span(c, stops)]
  {
    SpanInside(c, b, stops);
  }

  lemma {:induction false} CutBehind(c: string, p: string, query: Option<string>, fragment: Option<string>)
    requires c != "" && Avoids(c, "?#")
    ensures var b := p + Tail(query, fragment); (c + b)[..Span(c + b, "?#")] != p
  {
    var b := p + Tail(query, fragment);
    SpanSkip(c, b, "?#");
    if (c + b)[..Span(c + b, "?#")] == p {
      SpanAvoids(c + b, "?#");
      TailStops(p, query, fragment);
    }
  }

  /** A slash before the path starts the parsed path: that is the path only if a delimiter ends it before. */
  lemma {:induction false} PathBefore(a: string, p: string, query: Option<string>, fragment: Option<string>)
    requires Span(a, "/") < |a|
    ensures var c := a[Span(a, "/")..];
      ParsedPath(a + (p + Tail(query, fragment))) == Some(p) <==> Span(c, "?#") < |c| && c[..Span(c, "?#")] == p
  {
    var b, c := p + Tail(query, fragment), a[Span(a, "/")..];
    hide Span, ParsedPath, Tail;
    PathFromSlash(a, b);
    if Span(c, "?#") < |c| {
      CutInside(c, b, "?#");
    } else {
      SpanAll(c, "?#");
      CutBehind(c, p, query, fragment);
    }
  }

  lemma {:induction false} RestAvoidsSlash(f: Fields)
    requires f.path.None?
    ensures Avoids(RenderRest(f), "/") <==> PathSurvives(f)
  {
    RestForms(f);
    BeforePathAvoids(f, '/');
    TailAvoids(f.query, f.fragment, '/');
    assert PathAndTail(f) == Tail(f.query, f.fragment);
    AvoidsConcat(BeforePath(f), PathAndTail(f), "/");
  }

  lemma {:induction false} AfterUserAvoids(f: Fields)
    requires TailSurvives(f) && OptAvoids(f.host, "#")
    ensures Avoids(Text(f.host) + PortText(f), "?#")
  {
    PortTextAvoids(f, '?');
    PortTextAvoids(f, '#');
    TextAvoids(f.host, "?");
    TextAvoids(f.host, "#");
    AvoidsConcat(Text(f.host), PortText(f), "?");
    AvoidsConcat(Text(f.host), PortText(f), "#");
    AvoidsBoth(Text(f.host) + PortText(f));
  }

  lemma {:induction false} AvoidsBoth(t: string)
    ensures Avoids(t, "?#") <==> Avoids(t, "?") && Avoids(t, "#")
  {}

  lemma {:induction false} SuffixAvoids(t: string, i: nat, stops: string)
    requires i <= |t| && Avoids(t, stops)
    ensures Avoids(t[i..], stops)
  {}

  /** With a slash in the user: the parsed path lies in the user, or runs over its end. */
  lemma {:induction false} SlashInUser(u: string, b: string, p: string)
    requires Span(u, "/") < |u| && Avoids(b, "?#")
    ensures Span(u + b, "/") == Span(u, "/")
    ensures var c := (u + b)[Span(u, "/")..];
      Span(c, "?#") < |c| && c[..Span(c, "?#")] == p <==> InUser(Some(u), p)
  {
    var v := u[Span(u, "/")..];
    SpanInside(u, b, "/");
    assert (u + b)[Span(u, "/")..] == v + b;
    if Span(v, "?#") < |v| {
      SpanInside(v, b, "?#");
      assert (v + b)[..Span(v, "?#")] == v[..Span(v, "?#")];
    } else {
      SpanAll(v, "?#");
      SpanSkip(v, b, "?#");
      SpanAll(b, "?#");
    }
  }

  lemma {:induction false} BeforePathOfUser(f: Fields)
    requires f.user.Some?
    ensures BeforePath(f) == f.user.value + (['@'] + (Text(f.host) + PortText(f)))
  {
    Assoc(f.user.value, ['@'], Text(f.host) + PortText(f));
  }

  lemma {:induction false} SlashBeforePath(f: Fields, p: string)
    requires TailSurvives(f) && OptAvoids(f.host, "#") && Span(BeforePath(f), "/") < |BeforePath(f)|
    ensures var c := BeforePath(f)[Span(BeforePath(f), "/")..];
      Span(c, "?#") < |c| && c[..Span(c, "?#")] == p <==> InUser(f.user, p)
  {
    var a, w := BeforePath(f), Text(f.host) + PortText(f);
    AfterUserAvoids(f);
    if f.user.Some? && Span(f.user.value, "/") < |f.user.value| {
      BeforePathOfUser(f);
      AvoidsConcat(['@'], w, "?#");
      SlashInUser(f.user.value, ['@'] + w, p);
    } else {
      SlashInHost(f);
      var c := a[Span(a, "/")..];
      SpanAll(c, "?#");
    }
  }

  /** With the first slash behind the user, nothing but host and port follow it. */
  lemma {:induction false} SlashInHost(f: Fields)
    requires Avoids(Text(f.host) + PortText(f), "?#")
    requires f.user.Some? ==> Span(f.user.value, "/") == |f.user.value|
    ensures Avoids(BeforePath(f)[Span(BeforePath(f), "/")..], "?#")
    ensures forall p :: !InUser(f.user, p)
  {
    var a, w := BeforePath(f), Text(f.host) + PortText(f);
    if f.user.Some? {
      BeforePathOfUser(f);
      SpanAll(f.user.value, "/");
      SpanSkip(f.user.value, ['@'] + w, "/");
      AvoidsConcat(['@'], w, "?#");
      assert a[|f.user.value|..] == ['@'] + w;
      SliceOf(a, |f.user.value|, Span(['@'] + w, "/"));
      SuffixAvoids(['@'] + w, Span(['@'] + w, "/"), "?#");
    } else {
      assert a == w;
      SuffixAvoids(w, Span(w, "/"), "?#");
    }
  }

  lemma {:induction false} SliceOf(t: string, i: nat, k: nat)
    requires i + k <= |t|
    ensures t[i..][k..] == t[i + k..]
  {}

  /** The path comes back exactly under `PathSurvives`. */
  lemma {:induction false} PathIff(f: Fields)
    requires TailSurvives(f) && (f.path.Some? ==> OptAvoids(f.host, "#"))
    ensures ParsedPath(RenderRest(f)) == f.path <==> PathSurvives(f)
  {
    if f.path.None? {
      RestAvoidsSlash(f);
      SpanAll(RenderRest(f), "/");
    } else {
      PathSomeIff(f, f.path.value);
    }
  }

  lemma {:induction false} PathSurvivesSome(f: Fields, p: string)
    requires f.path == Some(p)
    ensures PathSurvives(f) <==>
            && p != "" && p[0] == '/' && Avoids(p, "?#")
            && (InUser(f.user, p) || (OptAvoids(f.user, "/") && OptAvoids(f.host, "/")))
  {}

  lemma {:induction false} PathSomeIff(f: Fields, p: string)
    requires TailSurvives(f) && OptAvoids(f.host, "#") && f.path == Some(p)
    ensures ParsedPath(RenderRest(f)) == Some(p) <==> PathSurvives(f)
  {
    var a := BeforePath(f);
    RestForms(f);
    assert PathAndTail(f) == p + Tail(f.query, f.fragment);
    hide *;
    BeforePathAvoids(f, '/');
    SpanAll(a, "/");
    PathSurvivesSome(f, p);
    if Span(a, "/") == |a| {
      PathBehind(a, p, f.query, f.fragment);
      UserWithoutSlash(f);
    } else {
      PathBefore(a, p, f.query, f.fragment);
      SlashBeforePath(f, p);
      if InUser(f.user, p) {
        InUserLooksLikePath(f.user, p);
      }
    }
  }

  lemma {:induction false} UserWithoutSlash(f: Fields)
    requires OptAvoids(f.user, "/")
    ensures forall p :: !InUser(f.user, p)
  {
    if f.user.Some? {
      SpanAll(f.user.value, "/");
    }
  }

  lemma {:induction false} InUserLooksLikePath(user: Option<string>, p: string)
    requires InUser(user, p)
    ensures p != "" && p[0] == '/' && Avoids(p, "?#")
  {
    var v := user.value[Span(user.value, "/")..];
    assert v[0] == '/';
    SpanAvoids(v, "?#");
  }

  // ---------------------------------------------------------------- the port

  function ParsedPort(t: string): (n: nat) {
    if HasPort(t) then Atoi(t[PortStop(t) + 1..][..PortDigits(t)]) else 0
  }

  /** The port scan ends the parse unless it finds no colon, or one in front of digits. */
  predicate PortAccepted(t: string) {
    !HasPort(t) || PortDigits(t) > 0
  }

  /** A path, if any, that looks like one. */
  ghost predicate PathShape(f: Fields) {
    f.path.Some? ==> f.path.value != "" && f.path.value[0] == '/' && Avoids(f.path.value, "?#")
  }

  lemma {:induction false} RunSkip(d: string, rest: string)
    requires (forall i | 0 <= i < |d| :: IsDigit(d[i])) && (rest == "" || !IsDigit(rest[0]))
    ensures DigitRun(d + rest) == |d|
  {
    if d == "" {
      assert d + rest == rest;
    } else {
      RunSkip(d[1..], rest);
      assert (d + rest)[1..] == d[1..] + rest;
      assert forall i | 0 <= i < |d[1..]| :: d[1..][i] == d[i + 1];
    }
  }

  lemma {:induction false} AfterPort(f: Fields)
    requires PathShape(f)
    ensures PathAndTail(f) == "" || PathAndTail(f)[0] in "/?#"
  {
    TailForms(f.query, f.fragment);
  }

  /** Positions in a text, counted from `k`. */
  lemma {:induction false} SliceAt(t: string, k: nat, b: string, n: nat)
    requires k <= |t| && t[k..] == b && n <= |b|
    ensures |t| == k + |b| && t[k..k + n] == b[..n]
    ensures n < |b| ==> t[k + n] == b[n] && t[k + n + 1..] == b[n + 1..]
  {}

  /** The port scan, seen from the start of the host. */
  lemma {:induction false} PortScan(t: string, b: string)
    requires t[HostStart(t)..] == b
    ensures PortStop(t) == HostStart(t) + Span(b, ":?#")
    ensures HasPort(t) <==> Span(b, ":?#") < |b| && b[Span(b, ":?#")] == ':'
    ensures HasPort(t) ==> t[PortStop(t) + 1..] == b[Span(b, ":?#") + 1..]
  {
    SliceAt(t, HostStart(t), b, Span(b, ":?#"));
  }

  lemma {:induction false} PortAt(t: string, h: string, d: string, rest: string)
    requires t[HostStart(t)..] == h + ([':'] + (d + rest)) && Avoids(h, ":?#")
    requires (forall i | 0 <= i < |d| :: IsDigit(d[i])) && (rest == "" || !IsDigit(rest[0]))
    ensures HasPort(t) && PortStop(t) == HostStart(t) + |h|
    ensures PortDigits(t) == |d| && t[PortStop(t) + 1..][..PortDigits(t)] == d
  {
    SpanFront(h, ':', d + rest, ":?#");
    Halves(h, ':', d + rest);
    PortScan(t, h + ([':'] + (d + rest)));
    RunSkip(d, rest);
    Front(d, rest);
  }

  lemma {:induction false} HostAtPort(t: string)
    requires HasPort(t)
    ensures |Host(t)| == PortStop(t) - HostStart(t)
  {
    hide HostStart;
  }

  /** A stop inside the host is a port that cuts it short, or hides any port behind it. */
  lemma {:induction false} StopInHost(t: string, h: string, rest: string)
    requires t[HostStart(t)..] == h + rest && Span(h, ":?#") < |h|
    ensures HasPort(t) <==> h[Span(h, ":?#")] == ':'
    ensures HasPort(t) ==> Host(t) != h
  {
    hide HostStart, PortStop, HasPort, Host, HostEnd;
    SpanInside(h, rest, ":?#");
    PortScan(t, h + rest);
    if HasPort(t) {
      HostAtPort(t);
    }
  }

  lemma {:induction false} HostCut(t: string, h: string, b: string)
    requires t[HostStart(t)..] == h + b && HostEnd(t) == HostStart(t) + |h|
    ensures Host(t) == h
  {
    hide HostStart, HostEnd;
    SliceAt(t, HostStart(t), h + b, |h|);
  }

  lemma {:induction false} EndsAtPort(t: string)
    requires HasPort(t)
    ensures HostEnd(t) == PortStop(t)
  {}

  /** A printed number behind the host is found with all its digits, and ends the host. */
  lemma {:induction false} PositivePort(t: string, h: string, port: nat, rest: string)
    requires port > 0 && Avoids(h, ":?#") && (rest == "" || !IsDigit(rest[0]))
    requires t[HostStart(t)..] == h + ([':'] + (Digits(port) + rest))
    ensures PortAccepted(t) && ParsedPort(t) == port && Host(t) == h
  {
    var d := Digits(port);
    AtoiOfDigits(port);
    hide HostStart, HostEnd, Host, PortStop, HasPort, PortDigits, Digits, Span;
    PortAt(t, h, d, rest);
    EndsAtPort(t);
    HostCut(t, h, [':'] + (d + rest));
  }

  /** A printed sign is no digit. */
  lemma {:induction false} NegativePort(t: string, h: string, rest: string)
    requires Avoids(h, ":?#") && t[HostStart(t)..] == h + ([':'] + (['-'] + rest))
    ensures !PortAccepted(t)
  {
    hide HostStart, PortStop, HasPort;
    SpanFront(h, ':', ['-'] + rest, ":?#");
    Halves(h, ':', ['-'] + rest);
    PortScan(t, h + ([':'] + (['-'] + rest)));
  }

  lemma {:induction false} PortForms(f: Fields)
    ensures f.port > 0 ==> PortText(f) + PathAndTail(f) == [':'] + (Digits(f.port) + PathAndTail(f))
    ensures f.port < 0 ==> PortText(f) + PathAndTail(f) == [':'] + (['-'] + (Digits(-f.port) + PathAndTail(f)))
    ensures f.port == 0 ==> PortText(f) + PathAndTail(f) == PathAndTail(f)
  {
    hide PathAndTail, Digits;
    if f.port > 0 {
      Assoc([':'], Digits(f.port), PathAndTail(f));
    } else if f.port < 0 {
      Assoc(['-'], Digits(-f.port), PathAndTail(f));
      Assoc([':'], ['-'] + Digits(-f.port), PathAndTail(f));
    }
  }

  lemma {:induction false} StopsOf(h: string)
    requires Avoids(h, "?")
    ensures Span(h, ":?#") == Span(h, ":#")
    ensures Span(h, ":?#") == |h| <==> Avoids(h, ":#")
    ensures Avoids(h, ":?#") <==> Avoids(h, ":#")
  {
    var n := Span(h, ":#");
    SpanAvoids(h, ":#");
    assert forall i | 0 <= i < n :: h[..n][i] == h[i];
    SpanIs(h, ":?#", n);
    SpanAll(h, ":#");
    SpanAll(h, ":?#");
  }

  /** A port other than 0 comes back, with the host before it, exactly if it is positive and no stop precedes it. */
  lemma {:induction false} PortNonZero(f: Fields, h: string)
    requires f.host == Some(h) && f.port != 0 && UserSurvives(f) && PathShape(f) && Avoids(h, "?")
    ensures var t := RenderRest(f);
      PortAccepted(t) && ParsedPort(t) == f.port && Host(t) == h <==> f.port > 0 && Avoids(h, ":#")
  {
    var t := RenderRest(f);
    UserIff(f);
    StopsOf(h);
    PortForms(f);
    AfterPort(f);
    assert Text(f.host) == h;
    assert ParsedPort(t) >= 0 && (!HasPort(t) ==> ParsedPort(t) == 0);
    hide *;
    if Span(h, ":?#") < |h| {
      StopInHost(t, h, PortText(f) + PathAndTail(f));
    } else if f.port > 0 {
      NoDigit(PathAndTail(f));
      PositivePort(t, h, f.port, PathAndTail(f));
    } else {
      NegativePort(t, h, Digits(-f.port) + PathAndTail(f));
    }
  }

  lemma {:induction false} NoDigit(t: string)
    requires t == "" || t[0] in "/?#"
    ensures t == "" || !IsDigit(t[0])
  {}

  // ---------------------------------------------------------------- no port

  /** Skipping a prefix moves the stop and keeps the character there. */
  lemma {:induction false} SpanBehind(h: string, b: string, stops: string)
    requires Avoids(h, stops)
    ensures Span(h + b, stops) == |h| + Span(b, stops)
    ensures Span(b, stops) < |b| ==> (h + b)[Span(h + b, stops)] == b[Span(b, stops)]
  {
    SpanSkip(h, b, stops);
  }

  lemma {:induction false} ColonInPath(a: string, query: Option<string>, fragment: Option<string>)
    requires Avoids(a, "?#")
    ensures var b := a + Tail(query, fragment);
      (Span(b, ":?#") < |b| && b[Span(b, ":?#")] == ':') <==> !Avoids(a, ":")
  {
    var tail := Tail(query, fragment);
    var b := a + tail;
    if Avoids(a, ":") {
      assert Avoids(a, ":?#");
      SpanSkip(a, tail, ":?#");
      TailForms(query, fragment);
    } else {
      var n := Span(b, ":?#");
      var i :| 0 <= i < |a| && a[i] in ":";
      assert b[i] == a[i] && b[i] in ":?#";
      assert n <= i && b[n] == a[n];
    }
  }

  /** Behind the host, with no port, the scan finds a colon only in the path. */
  lemma {:induction false} NoPortAt(t: string, h: string, a: string, query: Option<string>, fragment: Option<string>)
    requires t[HostStart(t)..] == h + (a + Tail(query, fragment)) && Avoids(h, ":?#") && Avoids(a, "?#")
    ensures HasPort(t) <==> !Avoids(a, ":")
  {
    hide *;
    SpanBehind(h, a + Tail(query, fragment), ":?#");
    ColonInPath(a, query, fragment);
    PortScan(t, h + (a + Tail(query, fragment)));
  }

  /** A port found behind a host that is followed by none does not end that host. */
  lemma {:induction false} NoPortRightBehind(t: string, h: string, rest: string)
    requires HasPort(t) && t[HostStart(t)..] == h + rest && (rest == "" || rest[0] in "/?#")
    ensures Host(t) != h
  {
    hide HostStart, PortStop, HasPort, Host;
    assert rest != "" ==> (h + rest)[|h|] == rest[0];
    HasPortColon(t);
    PortScan(t, h + rest);
    HostAtPort(t);
  }

  lemma {:induction false} HasPortColon(t: string)
    requires HasPort(t)
    ensures HostStart(t) <= PortStop(t) < |t| && t[PortStop(t)] == ':'
  {}

  lemma {:induction false} NoPortIff(f: Fields, h: string)
    requires f.host == Some(h) && f.port == 0 && UserSurvives(f) && PathShape(f) && Avoids(h, "?")
    ensures !HasPort(RenderRest(f)) <==> NoColonFirst(h) && (Avoids(h, ":#") ==> OptAvoids(f.path, ":"))
  {
    var t := RenderRest(f);
    UserIff(f);
    StopsOf(h);
    PortForms(f);
    TextAvoids(f.path, "?#");
    TextAvoids(f.path, ":");
    assert Text(f.host) == h && PathAndTail(f) == Text(f.path) + Tail(f.query, f.fragment);
    assert Span(h, ":#") < |h| ==> h[Span(h, ":#")] != '?';
    hide RenderRest, HostStart, HasPort, PortStop, Span, Tail, Text, PortText, PathAndTail, UserText;
    if Span(h, ":?#") < |h| {
      StopInHost(t, h, PathAndTail(f));
    } else {
      NoPortAt(t, h, Text(f.path), f.query, f.fragment);
    }
  }

  lemma {:induction false} HostIsText(f: Fields)
    requires f.host.Some?
    ensures Text(f.host) == f.host.value
  {}

  lemma {:induction false} NoPortUnlessCut(f: Fields, h: string)
    requires f.host == Some(h) && f.port == 0 && UserSurvives(f) && PathShape(f) && Avoids(h, "?")
    requires Host(RenderRest(f)) == h
    ensures !HasPort(RenderRest(f))
  {
    hide *;
    UserIff(f);
    PortForms(f);
    AfterPort(f);
    HostIsText(f);
    if HasPort(RenderRest(f)) {
      NoPortRightBehind(RenderRest(f), h, PathAndTail(f));
    }
  }

  lemma {:induction false} HostEndAtTail(t: string)
    requires !HasPort(t)
    ensures HostEnd(t) == if Span(t, "?") < |t| then Span(t, "?")
                          else if Span(t, "#") < |t| then Span(t, "#") else Span(t, "/")
  {}

  lemma {:induction false} FrontSeparable(f: Fields)
    requires TailSurvives(f)
    ensures Separable(FrontText(f), f.query, f.fragment)
  {
    TailSurvivesIff(f);
    hide FrontText, TailSurvives;
    AvoidsConcat("//", FrontText(f), "?");
    AvoidsConcat("//", FrontText(f), "#");
  }

  lemma {:induction false} FrontLength(f: Fields)
    requires f.port == 0
    ensures |FrontText(f)| == |UserText(f)| + |Text(f.host) + Text(f.path)|
    ensures Text(f.host) + (PortText(f) + PathAndTail(f)) == (Text(f.host) + Text(f.path)) + Tail(f.query, f.fragment)
    ensures |RenderRest(f)| == |FrontText(f)| + |Tail(f.query, f.fragment)|
  {
    PortForms(f);
    Assoc(Text(f.host), Text(f.path), Tail(f.query, f.fragment));
    RestForms(f);
  }

  lemma {:induction false} TailLength(query: Option<string>, fragment: Option<string>)
    ensures |Tail(query, fragment)| > 0 <==> query.Some? || fragment.Some?
  {}

  /** With a query or a fragment and no port, the host is cut out together with the path. */
  lemma {:induction false} HostRunsToTail(f: Fields)
    requires f.port == 0 && UserSurvives(f) && TailSurvives(f) && !HasPort(RenderRest(f))
    requires f.query.Some? || f.fragment.Some?
    ensures Host(RenderRest(f)) == Text(f.host) + Text(f.path)
  {
    hide *;
    UserIff(f);
    FrontSeparable(f);
    TailSpans(FrontText(f), f.query, f.fragment);
    RestForms(f);
    FrontLength(f);
    TailLength(f.query, f.fragment);
    HostEndAtTail(RenderRest(f));
    HostCut(RenderRest(f), Text(f.host) + Text(f.path), Tail(f.query, f.fragment));
  }

  /** With nothing behind the path and no port, the host ends where the path starts. */
  lemma {:induction false} HostRunsToPath(f: Fields)
    requires f.port == 0 && UserSurvives(f) && TailSurvives(f) && PathSurvives(f) && !HasPort(RenderRest(f))
    requires f.query.None? && f.fragment.None? && f.host.Some?
    ensures Host(RenderRest(f)) == f.host.value
  {
    hide *;
    HostIsText(f);
    UserIff(f);
    PortForms(f);
    FrontSeparable(f);
    TailSpans(FrontText(f), f.query, f.fragment);
    RestForms(f);
    SlashAt(f);
    HostEndAtTail(RenderRest(f));
    HostCut(RenderRest(f), f.host.value, PathAndTail(f));
  }

  lemma {:induction false} SlashAt(f: Fields)
    requires f.port == 0 && TailSurvives(f) && PathSurvives(f) && f.query.None? && f.fragment.None?
    ensures Span(RenderRest(f), "/") == |UserText(f)| + |Text(f.host)|
  {
    if f.path.None? {
      RestAvoidsSlash(f);
      SpanAll(RenderRest(f), "/");
    } else {
      NotInUser(f);
      BeforePathAvoids(f, '/');
      RestForms(f);
      SpanSkip(BeforePath(f), PathAndTail(f), "/");
      assert PathAndTail(f)[0] == '/';
    }
  }

  lemma {:induction false} NotInUser(f: Fields)
    requires TailSurvives(f) && f.query.None?
    ensures forall p :: !InUser(f.user, p)
  {
    if f.user.Some? {
      var u := f.user.value;
      AvoidsBoth(u);
      SuffixAvoids(u, Span(u, "/"), "?#");
      SpanAll(u[Span(u, "/")..], "?#");
    }
  }

  // ---------------------------------------------------------------- the whole record

  /** The authority parser, field by field, on any object: a failure leaves the user set, a success sets the host, and
    user, port and path are set if they are found. */
  lemma {:induction false} AuthorityFields(t: string, g: Fields)
    ensures var u := if ParsedUser(t).Some? then ParsedUser(t) else g.user;
      ParseAuthority(t, g)
      == if !PortAccepted(t) then (false, g.(user := u))
         else (true, Fields(g.scheme, u, Some(Host(t)), if HasPort(t) then ParsedPort(t) else g.port,
                            if ParsedPath(t).Some? then ParsedPath(t) else g.path, g.query, g.fragment))
  {
    hide Span, PathFrom, Host, HasPort, PortDigits, PortStop, Atoi;
  }

  lemma {:induction false} NoPortIsZero(t: string)
    ensures !HasPort(t) ==> ParsedPort(t) == 0
  {}

  lemma {:induction false} RenderWithHost(f: Fields)
    requires f.scheme.Some? && f.host.Some?
    ensures Render(f) == f.scheme.value + (":" + ("//" + RenderRest(f)))
  {
    hide RenderRest;
    Assoc(":", "//", RenderRest(f));
  }

  lemma {:induction false} ParseSlashes(t: string, g: Fields)
    ensures ParseRest("//" + t, g) == ParseAuthority(t, ParseTail("//" + t, g))
  {
    hide ParseTail, ParseAuthority, OpaquePath;
    assert ("//" + t)[2..] == t;
  }

  /** The parser's way to the authority of a printed record. */
  lemma {:induction false} ReachesAuthority(f: Fields)
    requires f.scheme.Some? && SchemeShape(f.scheme.value) && f.host.Some?
    ensures Parse(Render(f), BLANK)
            == ParseAuthority(RenderRest(f), ParseTail("//" + RenderRest(f), BLANK.(scheme := f.scheme)))
  {
    hide Render, RenderRest, Parse, ParseRest, ParseTail, ParseAuthority, SchemeShape;
    RenderWithHost(f);
    ParseAfterScheme(f.scheme.value, "//" + RenderRest(f), BLANK);
    ParseSlashes(RenderRest(f), BLANK.(scheme := f.scheme));
  }

  /** A record comes back if and only if each of its fields does. */
  lemma {:induction false} FieldByField(f: Fields)
    requires f.scheme.Some? && SchemeShape(f.scheme.value) && f.host.Some?
    ensures var t := RenderRest(f);
      Parse(Render(f), BLANK) == (true, f) <==>
        && TailSurvives(f) && ParsedUser(t) == f.user && ParsedPath(t) == f.path
        && PortAccepted(t) && ParsedPort(t) == f.port && Host(t) == f.host.value
  {
    var t, g := RenderRest(f), BLANK.(scheme := f.scheme);
    ReachesAuthority(f);
    TailIff(f, g);
    TailKeepsOthers("//" + t, g);
    AuthorityFields(t, ParseTail("//" + t, g));
    NoPortIsZero(t);
    hide Parse, Render, RenderRest, ParseAuthority, ParseTail, ParsedUser, ParsedPath, ParsedPort, Host, HasPort,
         PortDigits, TailSurvives;
  }

  lemma {:induction false} TailKeepsOthers(rest: string, f: Fields)
    ensures ParseTail(rest, f) == f.(query := ParseTail(rest, f).query, fragment := ParseTail(rest, f).fragment)
  {}

  lemma {:induction false} ShapeOfParsedPath(f: Fields)
    requires ParsedPath(RenderRest(f)) == f.path
    ensures PathShape(f)
  {
    if f.path.Some? {
      PathStarts(RenderRest(f));
    }
  }

  lemma {:induction false} HostOfZeroPort(f: Fields, h: string)
    requires f.host == Some(h) && f.port == 0 && TailSurvives(f) && UserSurvives(f) && PathShape(f)
    requires Host(RenderRest(f)) == h && ParsedPath(RenderRest(f)) == f.path
    ensures PathSurvives(f) && PortSurvives(f)
  {
    NoPortUnlessCut(f, h);
    NoPortIff(f, h);
    if f.path.Some? && (f.query.Some? || f.fragment.Some?) {
      HostRunsToTail(f);
    }
    PathIff(f);
    AvoidsColon(h);
  }

  lemma {:induction false} AvoidsColon(h: string)
    ensures NoColonFirst(h) && Avoids(h, "#") ==> Avoids(h, ":#")
  {
    SpanAll(h, ":#");
  }

  lemma {:induction false} ZeroPortSurvives(f: Fields, h: string)
    requires f.host == Some(h) && f.port == 0
    requires TailSurvives(f) && UserSurvives(f) && PathSurvives(f) && PortSurvives(f)
    ensures Host(RenderRest(f)) == h && !HasPort(RenderRest(f)) && ParsedPath(RenderRest(f)) == f.path
  {
    NoPortIff(f, h);
    PathIff(f);
    if f.query.Some? || f.fragment.Some? {
      HostRunsToTail(f);
      assert h + "" == h;
    } else {
      HostRunsToPath(f);
    }
  }

  lemma {:induction false} SchemeNeeded(f: Fields)
    requires RoundTrips(f)
    ensures f.scheme.Some? && SchemeShape(f.scheme.value)
  {
    ParsedScheme(Render(f));
  }

  lemma {:induction false} PrintableIff(f: Fields)
    ensures Printable(f) <==> -99 <= f.port <= 999
  {
    PortFitsLocalBuffer(f.port);
  }

  lemma {:induction false} SurvivingComesBack(f: Fields)
    requires AuthoritySurvives(f)
    ensures RoundTrips(f)
  {
    hide Parse, Render, RenderRest, ParsedUser, ParsedPath, Host, HasPort, TailSurvives, UserSurvives, SchemeShape;
    var h := f.host.value;
    FieldByField(f);
    PrintableIff(f);
    UserIff(f);
    HostAvoidsQuery(f);
    if f.port == 0 {
      ZeroPortSurvives(f, h);
    } else {
      PortNonZero(f, h);
      SpanAll(h, ":#");
      AvoidsHash(h);
      PathIff(f);
    }
  }

  lemma {:induction false} HostAvoidsQuery(f: Fields)
    requires TailSurvives(f) && f.host.Some?
    ensures Avoids(f.host.value, "?")
  {}

  lemma {:induction false} AvoidsHash(h: string)
    requires Avoids(h, ":#")
    ensures Avoids(h, "#")
  {}

  lemma {:induction false} ComingBackSurvives(f: Fields)
    requires RoundTrips(f) && f.host.Some?
    ensures AuthoritySurvives(f)
  {
    SchemeNeeded(f);
    FieldByField(f);
    PrintableIff(f);
    hide Parse, Render, RenderRest, ParsedUser, ParsedPath, Host, HasPort, TailSurvives, UserSurvives, SchemeShape;
    var h := f.host.value;
    UserIff(f);
    HostAvoidsQuery(f);
    ShapeOfParsedPath(f);
    if f.port == 0 {
      HostOfZeroPort(f, h);
    } else {
      PortNonZero(f, h);
      AvoidsHash(h);
      PathIff(f);
    }
  }

  /** Every record, whatever its fields, survives printing and parsing if and only if it satisfies this condition. */
  lemma {:induction false} RoundTripExact(f: Fields)
    ensures RoundTrips(f) <==> if f.host.None? then OpaqueShape(f) else AuthoritySurvives(f)
  {
    hide *;
    if f.host.None? {
      OpaqueRoundTrip(f);
    } else {
      if RoundTrips(f) {
        ComingBackSurvives(f);
      }
      if AuthoritySurvives(f) {
        SurvivingComesBack(f);
      }
    }
  }

  // ---------------------------------------------------------------- components without delimiters

  /** No component holds a delimiter that is looked for around it; this leaves out IP literals, whose colons the port
    scan takes for a port. */
  ghost predicate AuthorityShape(f: Fields) {
    && f.scheme.Some? && SchemeShape(f.scheme.value)
    && f.host.Some? && Avoids(f.host.value, "/:?#@")
    && OptAvoids(f.user, "@/?#")
    && f.port >= 0
    && (f.path.Some? ==> f.path.value != "" && f.path.value[0] == '/' && Avoids(f.path.value, "?#"))
    && OptAvoids(f.query, "#")
  }

  /** When the parser finds such components again. */
  ghost predicate Recoverable(f: Fields) {
    // the printer's local buffer holds three digits
    && f.port <= 999
    // without a port, the host is taken to end at the query or the fragment, or at a colon of the path
    && (f.port == 0 && f.path.Some? ==> f.query.None? && f.fragment.None? && Avoids(f.path.value, ":"))
    // without a user, any later @ ends one
    && (f.user.None? ==> OptAvoids(f.path, "@") && OptAvoids(f.query, "@") && OptAvoids(f.fragment, "@"))
    // without a path, any later / starts one
    && (f.path.None? ==> OptAvoids(f.query, "/") && OptAvoids(f.fragment, "/"))
    // without a query, a ? in the fragment starts one
    && (f.query.None? ==> OptAvoids(f.fragment, "?"))
  }

  lemma {:induction false} ShapeAvoids(f: Fields)
    requires AuthorityShape(f)
    ensures forall c | c in "/:?#@" :: Avoids(f.host.value, [c])
    ensures forall c | c in "@/?#" :: OptAvoids(f.user, [c])
    ensures forall c | c in "?#" :: OptAvoids(f.path, [c])
    ensures Avoids(f.host.value, ":#") && NoColonFirst(f.host.value)
  {}

  lemma {:induction false} ShapeSurvives(f: Fields)
    requires AuthorityShape(f)
    ensures AuthoritySurvives(f) <==> Recoverable(f)
  {
    ShapeAvoids(f);
    UserWithoutSlash(f);
  }

  /** A record of this shape survives printing and parsing exactly under `Recoverable`. */
  lemma {:induction false} AuthorityRoundTrip(f: Fields)
    requires AuthorityShape(f)
    ensures RoundTrips(f) <==> Recoverable(f)
  {
    RoundTripExact(f);
    ShapeSurvives(f);
    hide AuthoritySurvives, Recoverable, RoundTrips;
  }

  // ---------------------------------------------------------------- examples

  /** Without a port, a path with a query or a fragment behind it comes back as part of the host. */
  lemma {:induction false} HostSwallowsPath(f: Fields)
    requires AuthorityShape(f) && f.port == 0 && f.path.Some? && Avoids(f.path.value, ":")
    requires UserSurvives(f) && TailSurvives(f) && (f.query.Some? || f.fragment.Some?)
    ensures Host(RenderRest(f)) == f.host.value + f.path.value
  {
    hide RenderRest, Host, HasPort, UserSurvives, TailSurvives;
    ShapeAvoids(f);
    NoPortIff(f, f.host.value);
    HostRunsToTail(f);
  }

  lemma {:induction false} ExampleShape(f: Fields)
    requires f == Fields(Some("http"), None, Some("h"), 0, Some("/p"), Some("q"), None)
    ensures AuthorityShape(f) && UserSurvives(f) && TailSurvives(f) && !Recoverable(f) && Avoids(f.path.value, ":")
  {}

  /** A path with a query and no port is lost: the host of `http://h/p?q` is taken to end at the `?`. */
  lemma {:induction false} PathAndQueryWithoutPort()
    ensures var f := Fields(Some("http"), None, Some("h"), 0, Some("/p"), Some("q"), None);
      AuthorityShape(f) && !RoundTrips(f) && Host(RenderRest(f)) == "h/p"
  {
    hide *;
    var f := Fields(Some("http"), None, Some("h"), 0, Some("/p"), Some("q"), None);
    ExampleShape(f);
    AuthorityRoundTrip(f);
    HostSwallowsPath(f);
    assert "h" + "/p" == "h/p";
  }

  /** A port of four digits is lost, although the printed text would be parsed back. */
  lemma {:induction false} FourDigitPort()
    ensures var f := Fields(Some("http"), None, Some("h"), 5222, None, None, None);
      AuthorityShape(f) && !RoundTrips(f)
  {
    AuthorityRoundTrip(Fields(Some("http"), None, Some("h"), 5222, None, None, None));
    hide RoundTrips;
  }
}
