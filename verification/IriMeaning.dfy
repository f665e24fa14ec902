/** What `ta_iri_set_from_string` of `src/iri.c` stores for every string and every earlier content of the object,
  told by the first positions of the delimiters. */
module IriMeaning {
  import opened IriSpec
  import opened IriRoundTrip
  import opened IriAuthority
  import opened IriAccept
  import opened Options

  /** `i` is the first position of any of `stops`, or the end. */
  ghost predicate First(t: string, stops: string, i: nat) {
    && i <= |t| && (forall j | 0 <= j < i :: t[j] !in stops)
    && (i < |t| ==> t[i] in stops)
  }

  lemma {:induction false} FirstIsSpan(t: string, stops: string, i: nat)
    ensures First(t, stops, i) <==> i == Span(t, stops)
  {
    if First(t, stops, i) {
      assert forall j | 0 <= j < i :: t[..i][j] == t[j];
      SpanIs(t, stops, i);
    }
  }

  /** From `i` on there are exactly `n` digits. */
  ghost predicate DigitsAt(t: string, i: nat, n: nat) {
    && i + n <= |t| && (forall j | i <= j < i + n :: t[j] in "0123456789")
    && (i + n < |t| ==> t[i + n] !in "0123456789")
  }

  ghost predicate AllDigits(d: string) {
    forall j | 0 <= j < |d| :: IsDigit(d[j])
  }

  lemma {:induction false} DigitsAtIsRun(t: string, i: nat, n: nat)
    requires DigitsAt(t, i, n)
    ensures DigitRun(t[i..]) == n && t[i..][..n] == t[i..i + n] && AllDigits(t[i..i + n])
  {
    var b := t[i..];
    forall j | 0 <= j < |b|
      ensures b[j] == t[i + j] && (IsDigit(b[j]) <==> b[j] in "0123456789") {
      DigitsAre(b[j]);
    }
    hide IsDigit;
    assert forall j | 0 <= j < n :: IsDigit(b[j]) && t[i..i + n][j] == b[j];
    RunIs(b, n);
  }

  lemma {:induction false} RunIs(b: string, n: nat)
    requires n <= |b| && (forall j | 0 <= j < n :: IsDigit(b[j])) && (n < |b| ==> !IsDigit(b[n]))
    ensures DigitRun(b) == n
  {
    hide IsDigit;
    assert DigitRun(b) >= n;
  }

  // ---------------------------------------------------------------- query and fragment

  /** `q` is the first `?`, and `g` the first `#` behind it, or the first `#` at all without a `?`. */
  ghost predicate TailAt(rest: string, q: nat, g: nat) {
    && First(rest, "?", q)
    && if q < |rest| then q < g && First(rest[q + 1..], "#", g - q - 1) else First(rest, "#", g)
  }

  lemma {:induction false} TailByPositions(rest: string, f: Fields, q: nat, g: nat)
    requires TailAt(rest, q, g)
    ensures q <= |rest| && g <= |rest| && (q < |rest| ==> q < g)
    ensures ParseTail(rest, f)
            == f.(query := if q < |rest| then Some(rest[q + 1..g]) else f.query,
                  fragment := if g < |rest| then Some(rest[g + 1..]) else f.fragment)
    ensures OpaquePath(rest) == if q < |rest| then rest[..q] else rest[..g]
  {
    FirstIsSpan(rest, "?", q);
    if q < |rest| {
      QueryByPositions(rest, f, q, g);
    } else {
      FirstIsSpan(rest, "#", g);
    }
  }

  /** Every text has such positions. */
  lemma {:induction false} TailPositionsOf(rest: string) returns (q: nat, g: nat)
    ensures TailAt(rest, q, g)
  {
    q := Span(rest, "?");
    FirstIsSpan(rest, "?", q);
    if q < |rest| {
      g := q + 1 + Span(rest[q + 1..], "#");
      FirstIsSpan(rest[q + 1..], "#", g - q - 1);
    } else {
      g := Span(rest, "#");
      FirstIsSpan(rest, "#", g);
    }
  }

  lemma {:induction false} QuerySlices(rest: string, q: nat, g: nat)
    requires q < g <= |rest|
    ensures rest[q + 1..][..g - q - 1] == rest[q + 1..g]
    ensures g < |rest| ==> rest[q + 1..][g - q - 1 + 1..] == rest[g + 1..]
    ensures g == |rest| ==> rest[q + 1..] == rest[q + 1..g]
  {}

  lemma {:induction false} QueryByPositions(rest: string, f: Fields, q: nat, g: nat)
    requires q == Span(rest, "?") < g <= |rest| && First(rest[q + 1..], "#", g - q - 1)
    ensures ParseTail(rest, f)
            == f.(query := Some(rest[q + 1..g]), fragment := if g < |rest| then Some(rest[g + 1..]) else f.fragment)
  {
    QueryFound(rest, f, q);
    hide *;
    FirstIsSpan(rest[q + 1..], "#", g - q - 1);
    QuerySlices(rest, q, g);
  }

  lemma {:induction false} QueryFound(rest: string, f: Fields, q: nat)
    requires q == Span(rest, "?") < |rest|
    ensures var tail := rest[q + 1..];
      var m := Span(tail, "#");
      ParseTail(rest, f) == if m < |tail| then f.(query := Some(tail[..m]), fragment := Some(tail[m + 1..]))
                            else f.(query := Some(tail))
  {
    hide Span;
  }

  // ---------------------------------------------------------------- the authority

  /** The delimiters of an authority: `at` the first `@`, `hs` the start of the host, `c` where the port scan stops, `n`
    the number of digits behind it, `q`, `g` and `sl` the first `?`, `#` and `/`, `pe` the end of the path. */
  datatype Positions = Positions(at: nat, hs: nat, c: nat, n: nat, q: nat, g: nat, sl: nat, pe: nat)

  ghost predicate AuthorityAt(t: string, p: Positions) {
    && First(t, "@", p.at) && p.hs == (if p.at < |t| then p.at + 1 else 0)
    && p.hs <= p.c <= |t| && First(t[p.hs..], ":?#", p.c - p.hs)
    && (PortAt(t, p) ==> DigitsAt(t, p.c + 1, p.n))
    && First(t, "?", p.q) && First(t, "#", p.g) && First(t, "/", p.sl)
    && p.sl <= p.pe && First(t[p.sl..], "?#", p.pe - p.sl)
  }

  ghost predicate PortAt(t: string, p: Positions) {
    p.c < |t| && t[p.c] == ':'
  }

  /** The host ends at the port, or else at the query, the fragment, the path or the end, in this order. */
  ghost function EndAt(t: string, p: Positions): (he: nat) {
    if PortAt(t, p) then p.c else if p.q < |t| then p.q else if p.g < |t| then p.g else p.sl
  }

  lemma {:induction false} StartOfPositions(t: string, p: Positions)
    requires AuthorityAt(t, p)
    ensures HostStart(t) == p.hs && p.hs <= |t|
  {
    FirstIsSpan(t, "@", p.at);
  }

  lemma {:induction false} StopOfPositions(t: string, p: Positions)
    requires AuthorityAt(t, p)
    ensures PortStop(t) == p.c && (HasPort(t) <==> PortAt(t, p))
  {
    StartOfPositions(t, p);
    FirstIsSpan(t[p.hs..], ":?#", p.c - p.hs);
    hide Span, HostStart, First, DigitsAt;
  }

  lemma {:induction false} DigitsOfPositions(t: string, p: Positions)
    requires AuthorityAt(t, p) && PortAt(t, p)
    ensures DigitsAt(t, p.c + 1, p.n)
  {}

  lemma {:induction false} PortOfPositions(t: string, p: Positions)
    requires AuthorityAt(t, p)
    ensures HostStart(t) == p.hs && PortStop(t) == p.c && (HasPort(t) <==> PortAt(t, p))
    ensures PortAt(t, p) ==> PortDigits(t) == p.n && p.c + 1 + p.n <= |t|
    ensures PortAt(t, p) ==>
              AllDigits(t[p.c + 1..p.c + 1 + p.n]) && ParsedPort(t) == Atoi(t[p.c + 1..p.c + 1 + p.n])
  {
    hide *;
    StartOfPositions(t, p);
    StopOfPositions(t, p);
    if PortAt(t, p) {
      DigitsOfPositions(t, p);
      DigitsFit(t, p.c + 1, p.n);
      DigitsAtIsRun(t, p.c + 1, p.n);
      PortFromDigits(t, p.c, p.n, t[p.c + 1..p.c + 1 + p.n]);
    }
  }

  lemma {:induction false} DigitsFit(t: string, i: nat, n: nat)
    requires DigitsAt(t, i, n)
    ensures i + n <= |t|
  {}

  lemma {:induction false} PortFromDigits(t: string, c: nat, n: nat, d: string)
    requires HasPort(t) && PortStop(t) == c && DigitRun(t[c + 1..]) == n && t[c + 1..][..n] == d && AllDigits(d)
    ensures PortDigits(t) == n && ParsedPort(t) == Atoi(d)
  {
    hide PortStop, HasPort, Atoi, DigitRun, IsDigit;
  }

  lemma {:induction false} UserOfPositions(t: string, p: Positions)
    requires AuthorityAt(t, p)
    ensures p.at <= |t| && ParsedUser(t) == if p.at < |t| then Some(t[..p.at]) else None
  {
    FirstIsSpan(t, "@", p.at);
  }

  lemma {:induction false} PathPositions(t: string, p: Positions)
    requires AuthorityAt(t, p)
    ensures First(t, "/", p.sl) && p.sl <= p.pe && p.sl <= |t| && First(t[p.sl..], "?#", p.pe - p.sl) && p.pe <= |t|
  {}

  lemma {:induction false} PathFound(t: string, sl: nat, pe: nat)
    requires sl == Span(t, "/") <= pe <= |t| && pe - sl == Span(t[sl..], "?#")
    ensures ParsedPath(t) == if sl < |t| then Some(t[sl..pe]) else None
  {
    hide Span;
    SliceAt(t, sl, t[sl..], pe - sl);
  }

  lemma {:induction false} PathOfPositions(t: string, p: Positions)
    requires AuthorityAt(t, p)
    ensures p.sl <= p.pe <= |t| && ParsedPath(t) == if p.sl < |t| then Some(t[p.sl..p.pe]) else None
  {
    hide *;
    PathPositions(t, p);
    FirstIsSpan(t, "/", p.sl);
    FirstIsSpan(t[p.sl..], "?#", p.pe - p.sl);
    PathFound(t, p.sl, p.pe);
  }

  lemma {:induction false} EndOfPositions(t: string, p: Positions)
    requires AuthorityAt(t, p)
    ensures HostEnd(t) == EndAt(t, p)
  {
    StopOfPositions(t, p);
    FirstIsSpan(t, "?", p.q);
    FirstIsSpan(t, "#", p.g);
    FirstIsSpan(t, "/", p.sl);
    hide Span, First, HostStart, PortStop, HasPort, PortAt;
  }

  lemma {:induction false} HostBetween(t: string, hs: nat, he: nat)
    requires hs == HostStart(t) && he == HostEnd(t)
    ensures Host(t) == if hs <= he then t[hs..he] else t[hs..]
  {
    hide HostStart, HostEnd;
  }

  lemma {:induction false} HostOfPositions(t: string, p: Positions)
    requires AuthorityAt(t, p)
    ensures p.hs <= |t| && EndAt(t, p) <= |t|
    ensures Host(t) == if p.hs <= EndAt(t, p) then t[p.hs..EndAt(t, p)] else t[p.hs..]
  {
    hide *;
    StartOfPositions(t, p);
    EndOfPositions(t, p);
    HostBetween(t, p.hs, EndAt(t, p));
  }

  lemma {:induction false} ScanIsFirst(t: string, hs: nat, c: nat)
    requires hs == HostStart(t) && c == PortStop(t)
    ensures hs == if Span(t, "@") < |t| then Span(t, "@") + 1 else 0
    ensures hs <= c <= |t| && First(t[hs..], ":?#", c - hs)
  {
    var b := t[hs..];
    assert c - hs == Span(b, ":?#");
    hide HostStart, PortStop;
    FirstIsSpan(b, ":?#", c - hs);
  }

  lemma {:induction false} PathEndIsFirst(t: string, sl: nat, pe: nat)
    requires sl <= |t| && pe == sl + Span(t[sl..], "?#")
    ensures First(t[sl..], "?#", pe - sl)
  {
    FirstIsSpan(t[sl..], "?#", pe - sl);
  }

  lemma {:induction false} SpansAreFirst(t: string)
    ensures First(t, "@", Span(t, "@")) && First(t, "?", Span(t, "?"))
    ensures First(t, "#", Span(t, "#")) && First(t, "/", Span(t, "/")) && Span(t, "/") <= |t|
  {
    FirstIsSpan(t, "@", Span(t, "@"));
    FirstIsSpan(t, "?", Span(t, "?"));
    FirstIsSpan(t, "#", Span(t, "#"));
    FirstIsSpan(t, "/", Span(t, "/"));
  }

  lemma {:induction false} Assembled(t: string, at: nat, hs: nat, c: nat, n: nat, q: nat, g: nat, sl: nat, pe: nat)
    requires First(t, "@", at) && hs == (if at < |t| then at + 1 else 0)
    requires hs <= c <= |t| && First(t[hs..], ":?#", c - hs) && (c < |t| ==> DigitsAt(t, c + 1, n))
    requires First(t, "?", q) && First(t, "#", g) && First(t, "/", sl)
    requires sl <= pe && sl <= |t| && First(t[sl..], "?#", pe - sl)
    ensures AuthorityAt(t, Positions(at, hs, c, n, q, g, sl, pe))
  {
    hide First, DigitsAt;
  }

  /** Every text has such positions. */
  lemma {:induction false} PositionsOf(t: string) returns (p: Positions)
    ensures AuthorityAt(t, p)
  {
    hide *;
    var hs, c, sl := HostStart(t), PortStop(t), Span(t, "/");
    SpansAreFirst(t);
    ScanIsFirst(t, hs, c);
    var n := if c < |t| then DigitRun(t[c + 1..]) else 0;
    var pe := sl + Span(t[sl..], "?#");
    PathEndIsFirst(t, sl, pe);
    if c < |t| {
      RunIsDigitsAt(t, c + 1);
    }
    Assembled(t, Span(t, "@"), hs, c, n, Span(t, "?"), Span(t, "#"), sl, pe);
    p := Positions(Span(t, "@"), hs, c, n, Span(t, "?"), Span(t, "#"), sl, pe);
  }

  lemma {:induction false} RunIsDigitsAt(t: string, i: nat)
    requires i <= |t|
    ensures DigitsAt(t, i, DigitRun(t[i..]))
  {
    var b := t[i..];
    forall j | 0 <= j < |b|
      ensures t[i + j] == b[j] && (IsDigit(b[j]) <==> b[j] in "0123456789") {
      DigitsAre(b[j]);
    }
    forall j | i <= j < i + DigitRun(b)
      ensures t[j] in "0123456789" {
      assert t[j] == b[j - i];
    }
  }

  /** Every authority, well-formed or not, on every object: what a success stores and what a failure leaves. */
  lemma {:induction false} AuthorityByPositions(t: string, f: Fields, p: Positions)
    requires AuthorityAt(t, p)
    ensures p.at <= |t| && p.hs <= |t| && p.sl <= p.pe <= |t| && EndAt(t, p) <= |t|
    ensures PortAt(t, p) ==> p.c + 1 + p.n <= |t| && AllDigits(t[p.c + 1..p.c + 1 + p.n])
    ensures var u, he := if p.at < |t| then Some(t[..p.at]) else f.user, EndAt(t, p);
      ParseAuthority(t, f)
      == if PortAt(t, p) && p.n == 0 then (false, f.(user := u))
         else (true, f.(user := u,
                        port := if PortAt(t, p) then Atoi(t[p.c + 1..p.c + 1 + p.n]) else f.port,
                        path := if p.sl < |t| then Some(t[p.sl..p.pe]) else f.path,
                        host := Some(if p.hs <= he then t[p.hs..he] else t[p.hs..])))
  {
    AuthorityFields(t, f);
    UserOfPositions(t, p);
    PortOfPositions(t, p);
    PathOfPositions(t, p);
    HostOfPositions(t, p);
    hide ParseAuthority, AuthorityAt, Host, HasPort, PortDigits, ParsedUser, ParsedPath, ParsedPort, PortAt, EndAt,
         Atoi, IsDigit;
  }

  // ---------------------------------------------------------------- the whole string

  /** A string without a scheme leaves the object alone; behind a scheme, an authority or a path is read. */
  lemma {:induction false} ParseByPositions(s: string, f: Fields, p: nat)
    ensures (forall k: nat | k < |s| && s[k] == ':' :: !IsSchemeText(s[..k])) ==> Parse(s, f) == (false, f)
    ensures p < |s| && s[p] == ':' && IsSchemeText(s[..p]) ==>
              var rest := s[p + 1..];
              var r := ParseTail(rest, f.(scheme := Some(s[..p])));
              Parse(s, f) == if StartsWithSlashes(rest) then ParseAuthority(rest[2..], r)
                             else (true, r.(path := Some(OpaquePath(rest))))
  {
    hide IsSchemeText, SchemeShape, SchemeRun, ParseTail, ParseAuthority, OpaquePath;
    if SchemeOk(s) {
      SchemeIsShaped(s);
      SchemeTextIs(s[..SchemeRun(s)]);
    }
    if p < |s| && s[p] == ':' && IsSchemeText(s[..p]) {
      SchemeTextIs(s[..p]);
      SchemeColon(s, p);
    }
  }
}
