/** The IRI object of `src/iri.c`: the parser fills its fields in place, the printer writes a buffer of the
  precomputed size piece by piece.

  Pointers into a string are indices, and NULL is `None`. */
module Iri {
  import opened IriSpec
  import opened IriRoundTrip
  import opened Options
  import IriAccept
  import IriAuthority

  /** `strchr (s + i, c)`. */
  function StrChr(s: string, i: nat, c: char): (o: Option<nat>)
    requires i <= |s|
    ensures o.Some? ==> i <= o.value < |s| && s[o.value] == c
  {
    if i + Span(s[i..], [c]) < |s| then Some(i + Span(s[i..], [c])) else None
  }

  /** `strndup (s + i, n)`: the length is a `size_t`, so a negative one exceeds every string. */
  function StrNDup(s: string, i: nat, n: int): (t: string)
    requires i <= |s|
  {
    if 0 <= n <= |s| - i then s[i..i + n] else s[i..]
  }

  lemma {:induction false} SearchFurtherOn(s: string, i: nat, k: nat, c: char)
    requires i <= k <= |s| && Avoids(s[i..k], [c])
    ensures StrChr(s, i, c) == StrChr(s, k, c)
  {
    SpanSkip(s[i..k], s[k..], [c]);
    assert s[i..] == s[i..k] + s[k..];
  }

  lemma {:induction false} SliceOfSlice(s: string, i: nat, k: nat)
    requires i + k <= |s|
    ensures s[i..][k..] == s[i + k..] && s[i..][..k] == s[i..i + k]
  {}

  lemma {:induction false} Shift(s: string, k: nat, i: nat)
    requires k + i <= |s|
    ensures s[k..][i..] == s[k + i..] && (k + i < |s| ==> s[k..][i] == s[k + i])
  {}

  /** The steps of the parser, with positions counted in `s`. */
  lemma {:induction false} ParseSteps(s: string, f: Fields)
    ensures !IsAlpha(CharAt(s, 0)) || !(SchemeRun(s) < |s| && s[SchemeRun(s)] == ':') ==> Parse(s, f) == (false, f)
    ensures IsAlpha(CharAt(s, 0)) && SchemeRun(s) < |s| && s[SchemeRun(s)] == ':' ==>
              var k := SchemeRun(s) + 1;
              var r := ParseTail(s[k..], f.(scheme := Some(s[..SchemeRun(s)])));
              Parse(s, f) == if CharAt(s, k) == '/' && CharAt(s, k + 1) == '/' then ParseAuthority(s[k + 2..], r)
                             else (true, r.(path := Some(OpaquePath(s[k..]))))
  {
    hide SchemeRun, ParseTail, ParseAuthority, OpaquePath;
    if SchemeOk(s) {
      var k := SchemeRun(s) + 1;
      assert |s[k..]| >= 2 ==> s[k..][0] == s[k] && s[k..][1] == s[k + 1] && s[k..][2..] == s[k + 2..];
    }
  }

  /** Query and fragment of `s + k`, with positions counted in `s`. */
  function TailAt(s: string, k: nat, f: Fields): (r: Fields)
    requires k <= |s|
  {
    var q := StrChr(s, k, '?');
    if q.Some? then
      var g := StrChr(s, q.value + 1, '#');
      if g.Some? then f.(query := Some(s[q.value + 1..g.value]), fragment := Some(s[g.value + 1..]))
      else f.(query := Some(s[q.value + 1..]))
    else
      var g := StrChr(s, k, '#');
      if g.Some? then f.(fragment := Some(s[g.value + 1..])) else f
  }

  /** What `strchr` finds, seen from `s + k`. */
  lemma {:induction false} Found(s: string, k: nat, c: char)
    requires k <= |s|
    ensures StrChr(s, k, c).Some? <==> Span(s[k..], [c]) < |s[k..]|
    ensures StrChr(s, k, c).Some? ==>
              var n, i := Span(s[k..], [c]), StrChr(s, k, c).value;
              i == k + n < |s| && s[k..][n + 1..] == s[i + 1..] && s[k..][..n] == s[k..i]
  {
    if StrChr(s, k, c).Some? {
      var n := Span(s[k..], [c]);
      hide Span;
      SliceOfSlice(s, k, n);
      SliceOfSlice(s, k, n + 1);
    }
  }

  lemma {:induction false} TailByPosition(s: string, k: nat, f: Fields)
    requires k <= |s|
    ensures TailAt(s, k, f) == ParseTail(s[k..], f)
  {
    hide Span, StrChr;
    Found(s, k, '?');
    if StrChr(s, k, '?').Some? {
      Found(s, StrChr(s, k, '?').value + 1, '#');
    } else {
      Found(s, k, '#');
    }
  }

  lemma {:induction false} UserByPosition(s: string, k: nat)
    requires k <= |s|
    ensures var t, at := s[k..], StrChr(s, k, '@');
      && (at.Some? <==> Span(t, "@") < |t|)
      && (at.Some? ==> StrNDup(s, k, at.value - k) == t[..Span(t, "@")])
      && k + HostStart(t) == if at.Some? then at.value + 1 else k
  {
    hide Span, StrChr;
    Found(s, k, '@');
  }

  /** The colon that ends the port scan from `start` on. */
  function FoundPort(s: string, start: nat): (o: Option<nat>)
    requires start <= |s|
    ensures o.Some? ==> start <= o.value < |s|
  {
    var n := start + Span(s[start..], ":?#");
    if n < |s| && s[n] == ':' then Some(n) else None
  }

  lemma {:induction false} PortDefined(t: string)
    ensures PortStop(t) == HostStart(t) + Span(t[HostStart(t)..], ":?#")
    ensures HasPort(t) <==> PortStop(t) < |t| && t[PortStop(t)] == ':'
  {}

  lemma {:induction false} FoundPortDefined(s: string, start: nat)
    requires start <= |s|
    ensures var n := start + Span(s[start..], ":?#");
      FoundPort(s, start) == if n < |s| && s[n] == ':' then Some(n) else None
  {}

  /** What the port scan finds, seen from the authority. */
  lemma {:induction false} PortByPosition(s: string, k: nat)
    requires k <= |s|
    ensures var t, colon := s[k..], FoundPort(s, k + HostStart(s[k..]));
      && (HasPort(t) <==> colon.Some?)
      && (HasPort(t) ==> colon.value == k + PortStop(t) && t[PortStop(t) + 1..] == s[colon.value + 1..])
  {
    hide *;
    var t := s[k..];
    var hs, i := HostStart(t), PortStop(t);
    PortDefined(t);
    Shift(s, k, hs);
    FoundPortDefined(s, k + hs);
    assert i == hs + Span(s[k + hs..], ":?#");
    if i < |t| {
      Shift(s, k, i);
      Shift(s, k, i + 1);
    }
  }

  lemma {:induction false} PathByPosition(s: string, k: nat)
    requires k <= |s|
    ensures var t, slash := s[k..], StrChr(s, k, '/');
      && (slash.Some? <==> Span(t, "/") < |t|)
      && (slash.Some? ==> StrNDup(s, slash.value, Span(s[slash.value..], "?#")) == PathFrom(t))
  {
    hide Span, StrChr;
    Found(s, k, '/');
    if StrChr(s, k, '/').Some? {
      var i := StrChr(s, k, '/').value;
      SliceOfSlice(s, k, i - k);
      SliceOfSlice(s, i, Span(s[i..], "?#"));
    }
  }

  /** Where the host ends, as a position in `s`; `None` is NULL. */
  function EndOfHost(s: string, k: nat): (o: Option<nat>)
    requires k <= |s|
  {
    if HasPort(s[k..]) then Some(k + PortStop(s[k..]))
    else if StrChr(s, k, '?').Some? then StrChr(s, k, '?')
    else if StrChr(s, k, '#').Some? then StrChr(s, k, '#')
    else StrChr(s, k, '/')
  }

  lemma {:induction false} EndByPosition(s: string, k: nat)
    requires k <= |s|
    ensures var t, end := s[k..], EndOfHost(s, k);
      if end.Some? then end.value == k + HostEnd(t) else HostEnd(t) == |t|
  {
    hide Span, StrChr, PortStop, HasPort;
    Found(s, k, '?');
    Found(s, k, '#');
    Found(s, k, '/');
  }

  lemma {:induction false} Cut(s: string, k: nat, i: nat, j: nat)
    requires k + i <= |s| && k + j <= |s|
    ensures (if i <= j then s[k..][i..j] else s[k..][i..]) == StrNDup(s, k + i, j - i)
    ensures j == |s[k..]| ==> StrNDup(s, k + i, j - i) == StrNDup(s, k + i, -1)
  {}

  lemma {:induction false} HostIsCut(s: string, k: nat)
    requires k <= |s|
    ensures Host(s[k..]) == StrNDup(s, k + HostStart(s[k..]), HostEnd(s[k..]) - HostStart(s[k..]))
  {
    hide HostStart, HostEnd, StrNDup;
    Cut(s, k, HostStart(s[k..]), HostEnd(s[k..]));
  }

  lemma {:induction false} HostByPosition(s: string, k: nat)
    requires k <= |s|
    ensures var t, end := s[k..], EndOfHost(s, k);
      Host(t) == StrNDup(s, k + HostStart(t), if end.Some? then end.value - (k + HostStart(t)) else -1)
  {
    hide *;
    var t, end := s[k..], EndOfHost(s, k);
    EndByPosition(s, k);
    HostIsCut(s, k);
    if end.Some? {
      assert end.value - (k + HostStart(t)) == HostEnd(t) - HostStart(t);
    } else {
      Cut(s, k, HostStart(t), HostEnd(t));
    }
  }

  lemma {:induction false} OpaquePathByPosition(s: string, k: nat)
    requires k <= |s|
    ensures var q, g := StrChr(s, k, '?'), StrChr(s, k, '#');
      OpaquePath(s[k..]) == if q.Some? then StrNDup(s, k, q.value - k)
                            else if g.Some? then StrNDup(s, k, g.value - k) else s[k..]
  {
    hide Span, StrChr;
    Found(s, k, '?');
    Found(s, k, '#');
  }

  // ---------------------------------------------------------------- the loops of the parser

  lemma {:induction false} SchemeRunIs(s: string, p: nat)
    requires p <= |s| && (forall i | 0 <= i < p :: IsSchemeChar(s[i])) && (p < |s| ==> !IsSchemeChar(s[p]))
    ensures SchemeRun(s) == p
  {
    assert SchemeRun(s) >= p;
  }

  /** The scheme ends at the first colon; before it, only scheme characters will do. */
  method ScanScheme(s: string) returns (p: nat, ok: bool)
    requires '\0' !in s
    ensures ok <==> SchemeRun(s) < |s| && s[SchemeRun(s)] == ':'
    ensures ok ==> p == SchemeRun(s)
    ensures ok <==> exists k: nat :: IriAccept.ColonBehindScheme(s, k)
    ensures ok ==> IriAccept.ColonBehindScheme(s, p)
  {
    p, ok := 0, true;
    while true
      invariant p <= |s| && ok
      invariant forall i | 0 <= i < p :: IsSchemeChar(s[i])
      decreases |s| - p
    {
      var c := CharAt(s, p);
      if c == ':' {
        break;
      }
      if !IsAlpha(c) && !IsDigit(c) && !(c == '-' || c == '+' || c == '.') {
        SchemeRunIs(s, p);
        IriAccept.ColonIsBehindRun(s);
        return p, false;
      }
      p := p + 1;
    }
    SchemeRunIs(s, p);
    IriAccept.ColonIsBehindRun(s);
  }

  /** The port scan runs to the first colon, unless a `?`, a `#` or the end comes before. */
  method ScanPort(s: string, start: nat) returns (port: Option<nat>)
    requires start <= |s| && '\0' !in s
    ensures port == FoundPort(s, start)
  {
    var i := start;
    port := None;
    var c := CharAt(s, i);
    while c != '\0'
      invariant start <= i <= |s| && c == CharAt(s, i) && port == None
      invariant Avoids(s[start..i], ":?#")
      decreases |s| - i
    {
      if c == ':' {
        port := Some(i);
        break;
      }
      if c == '?' || c == '#' {
        break;
      }
      assert s[start..i + 1] == s[start..i] + [c];
      i := i + 1;
      c := CharAt(s, i);
    }
    assert s[start..][..i - start] == s[start..i];
    SpanIs(s[start..], ":?#", i - start);
  }

  method CountDigits(s: string, start: nat) returns (length: nat)
    requires start <= |s| && '\0' !in s
    ensures length == DigitRun(s[start..])
  {
    length := 0;
    var c := CharAt(s, start);
    while c != '\0'
      invariant start + length <= |s| && c == CharAt(s, start + length)
      invariant forall i | 0 <= i < length :: IsDigit(s[start..][i])
      decreases |s| - length
    {
      if !IsDigit(c) {
        break;
      }
      length := length + 1;
      c := CharAt(s, start + length);
    }
    assert start + length < |s| ==> s[start..][length] == c;
    assert DigitRun(s[start..]) >= length;
  }

  /** The path runs to the next `?` or `#`. */
  method PathLength(s: string, start: nat) returns (length: nat)
    requires start <= |s| && '\0' !in s
    ensures length == Span(s[start..], "?#")
  {
    length := 0;
    var c := CharAt(s, start);
    while c != '\0'
      invariant start + length <= |s| && c == CharAt(s, start + length)
      invariant Avoids(s[start..][..length], "?#")
      decreases |s| - length
    {
      if c == '?' || c == '#' {
        break;
      }
      assert s[start..][..length + 1] == s[start..][..length] + [c];
      length := length + 1;
      c := CharAt(s, start + length);
    }
    SpanIs(s[start..], "?#", length);
  }

  /** The buffer starts with the text and a NUL. */
  predicate Holds(buffer: array<char>, text: string)
    reads buffer
  {
    |text| < buffer.Length && buffer[..|text|] == text && buffer[|text|] == '\0'
  }

  // ---------------------------------------------------------------- the pieces of the printer

  /** `memcpy (ret + position, text, size)` and `position += size`. */
  method Append(ret: array<char>, position: nat, text: string) returns (next: nat)
    requires position + |text| <= ret.Length
    modifies ret
    ensures next == position + |text|
    ensures ret[..next] == old(ret[..position]) + text
  {
    forall i | 0 <= i < |text| {
      ret[position + i] := text[i];
    }
    next := position + |text|;
  }

  method AppendPrefixed(ret: array<char>, position: nat, c: char, o: Option<string>) returns (next: nat)
    requires position + |Prefixed(c, o)| <= ret.Length
    modifies ret
    ensures next == position + |Prefixed(c, o)|
    ensures ret[..next] == old(ret[..position]) + Prefixed(c, o)
  {
    next := position;
    if o.Some? {
      next := Append(ret, next, [c]);
      next := Append(ret, next, o.value);
    }
  }

  /** The pieces in the order they are written. */
  lemma {:induction false} RenderInOrder(f: Fields)
    ensures Render(f) == Text(f.scheme) + Separator(f) + UserText(f) + Text(f.host) + PortText(f) + Text(f.path)
                         + Prefixed('?', f.query) + Prefixed('#', f.fragment)
  {
    hide Separator, UserText, PortText, Prefixed, Text;
    FromTheLeft(Text(f.scheme), Separator(f), UserText(f), Text(f.host), PortText(f), Text(f.path),
                Prefixed('?', f.query), Prefixed('#', f.fragment));
  }

  lemma {:induction false} SeparatorLength(f: Fields)
    ensures |Separator(f)| <= 3
  {}

  lemma {:induction false} RenderLength(f: Fields)
    ensures |Render(f)| == |Text(f.scheme)| + |Separator(f)| + |UserText(f)| + |Text(f.host)|
                           + |PortText(f)| + |Text(f.path)|
                           + |Prefixed('?', f.query)| + |Prefixed('#', f.fragment)|
  {}

  /** `sprintf` into a local buffer of four characters, read back up to its NUL. */
  method FormatPort(port: int) returns (text: string)
    requires |Decimal(port)| <= 3
    ensures text == Decimal(port)
  {
    hide *;
    var buffer := new char[4];
    var size := Append(buffer, 0, Decimal(port));
    buffer[size] := '\0';
    text := buffer[..size];
  }

  /** The length of a field, and the delimiter it brings along. */
  method SizeOf(o: Option<string>) returns (size: nat, delimiter: nat)
    ensures size == |Text(o)| && delimiter == if o.Some? then 1 else 0
  {
    size, delimiter := 0, 0;
    if o.Some? {
      size := |o.value|;
      delimiter := 1;
    }
  }

  class Iri {
    var scheme: Option<string>
    var user: Option<string>
    var host: Option<string>
    var port: int
    var path: Option<string>
    var query: Option<string>
    var fragment: Option<string>

    function Record(): (f: Fields)
      reads this
    {
      Fields(scheme, user, host, port, path, query, fragment)
    }

    constructor ()
      ensures Record() == BLANK
      ensures scheme == user == host == path == query == fragment == None && port == 0
    {
      scheme, user, host, port, path, query, fragment := None, None, None, 0, None, None, None;
    }

    /** Query and fragment, looked for from the scheme colon on; `q` points behind the `?`, `g` behind the `#` that ends
      a query, or else at the first `#`. */
    method SetTail(s: string, p: nat) returns (q: Option<nat>, g: Option<nat>)
      requires p < |s| && s[p] == ':'
      modifies this`query, this`fragment
      ensures Record() == ParseTail(s[p + 1..], old(Record()))
      ensures var first := StrChr(s, p + 1, '?'); q == if first.Some? then Some(first.value + 1) else None
      ensures q.None? ==> g == StrChr(s, p + 1, '#')
    {
      hide ParseTail, Span, StrChr;
      SearchFurtherOn(s, p, p + 1, '?');
      SearchFurtherOn(s, p, p + 1, '#');
      TailByPosition(s, p + 1, Record());
      q := StrChr(s, p, '?');
      if q.Some? {
        q := Some(q.value + 1);
        g := StrChr(s, q.value, '#');
        if g.Some? {
          g := Some(g.value + 1);
          query := Some(StrNDup(s, q.value, g.value - 1 - q.value));
          fragment := Some(s[g.value..]);
        } else {
          query := Some(s[q.value..]);
        }
      } else {
        g := StrChr(s, p, '#');
        if g.Some? {
          fragment := Some(s[g.value + 1..]);
        }
      }
    }

    /** The port, searched from the start of the host on. */
    method SetPort(s: string, k: nat, start: nat) returns (ok: bool, colon: Option<nat>)
      requires k <= |s| && '\0' !in s && start == k + HostStart(s[k..])
      modifies this`port
      ensures var t := s[k..];
        && ok == !(HasPort(t) && PortDigits(t) == 0)
        && colon == (if HasPort(t) then Some(k + PortStop(t)) else None)
        && port == if ok && HasPort(t) then Atoi(t[PortStop(t) + 1..][..PortDigits(t)]) else old(port)
    {
      hide Span, PortStop, HasPort, HostStart, Atoi, DigitRun, CharAt, FoundPort;
      PortByPosition(s, k);
      colon := ScanPort(s, start);
      if colon.Some? {
        var length := CountDigits(s, colon.value + 1);
        if length == 0 {
          return false, colon;
        }
        port := Atoi(s[colon.value + 1..][..length]);
      }
      return true, colon;
    }

    /** The path, searched from the start of the authority on; it starts with the slash that was looked for. */
    method SetPath(s: string, k: nat) returns (slash: Option<nat>)
      requires k <= |s| && '\0' !in s
      modifies this`path
      ensures slash == StrChr(s, k, '/')
      ensures path == if Span(s[k..], "/") < |s[k..]| then Some(PathFrom(s[k..])) else old(path)
    {
      hide Span, StrChr, StrNDup, PathFrom;
      PathByPosition(s, k);
      slash := StrChr(s, k, '/');
      if slash.Some? {
        var length := PathLength(s, slash.value);
        path := Some(StrNDup(s, slash.value, length));
      }
    }

    /** What follows `//` at `k`. */
    method SetAuthority(s: string, k: nat, q: Option<nat>, g: Option<nat>) returns (ok: bool)
      requires k <= |s| && '\0' !in s
      requires var first := StrChr(s, k, '?'); q == if first.Some? then Some(first.value + 1) else None
      requires q.None? ==> g == StrChr(s, k, '#')
      modifies this
      ensures (ok, Record()) == ParseAuthority(s[k..], old(Record()))
    {
      hide Span, StrChr, StrNDup, PathFrom, Host, HasPort, PortStop, PortDigits, HostStart, Atoi;
      UserByPosition(s, k);
      HostByPosition(s, k);
      var at, start := StrChr(s, k, '@'), k;
      if at.Some? {
        user := Some(StrNDup(s, k, at.value - k));
        start := at.value + 1;
      }
      var colon;
      ok, colon := SetPort(s, k, start);
      if !ok {
        return;
      }
      var slash := SetPath(s, k);
      var end := if colon.Some? then colon else if q.Some? then Some(q.value - 1) else if g.Some? then g else slash;
      assert end == EndOfHost(s, k);
      host := Some(StrNDup(s, start, if end.Some? then end.value - start else -1));
    }

    /** Without an authority, all up to the query or the fragment is the path. */
    method SetOpaquePath(s: string, k: nat, q: Option<nat>, g: Option<nat>)
      requires k <= |s|
      requires var first := StrChr(s, k, '?'); q == if first.Some? then Some(first.value + 1) else None
      requires q.None? ==> g == StrChr(s, k, '#')
      modifies this`path
      ensures path == Some(OpaquePath(s[k..]))
    {
      OpaquePathByPosition(s, k);
      hide StrChr, StrNDup, OpaquePath;
      if q.Some? {
        path := Some(StrNDup(s, k, q.value - 1 - k));
      } else if g.Some? {
        path := Some(StrNDup(s, k, g.value - k));
      } else {
        path := Some(s[k..]);
      }
    }

    /** `ta_iri_set_from_string`: a failure leaves what was set up to then. */
    method SetFromString(s: string) returns (ok: bool)
      requires '\0' !in s
      modifies this
      ensures (ok, Record()) == Parse(s, old(Record()))
      ensures ok <==> exists p: nat :: IriAccept.AcceptedAt(s, p)
    {
      IriAccept.SucceedsExactlyOnAccepted(s, Record());
      ParseSteps(s, Record());
      hide Parse, SchemeRun, Span, StrChr, ParseTail, ParseAuthority, OpaquePath, IsAlpha, IriAccept.AcceptedAt,
           IriAccept.ColonBehindScheme;
      if !IsAlpha(CharAt(s, 0)) {
        return false;
      }
      var p;
      p, ok := ScanScheme(s);
      if !ok {
        return;
      }
      scheme := Some(s[..p]);
      var q, g := SetTail(s, p);
      var k := p + 1;
      if CharAt(s, k) == '/' && CharAt(s, k + 1) == '/' {
        SearchFurtherOn(s, k, k + 2, '?');
        SearchFurtherOn(s, k, k + 2, '#');
        ok := SetAuthority(s, k + 2, q, g);
      } else {
        SetOpaquePath(s, k, q, g);
      }
    }

    method PrintSeparator(ret: array<char>, position: nat) returns (next: nat)
      requires position + |Separator(Record())| <= ret.Length
      modifies ret
      ensures next == position + |Separator(Record())|
      ensures ret[..next] == old(ret[..position]) + Separator(Record())
    {
      next := position;
      if host.Some? && scheme.Some? {
        next := Append(ret, next, "://");
      }
      if host.None? {
        next := Append(ret, next, ":");
      }
    }

    method PrintUser(ret: array<char>, position: nat) returns (next: nat)
      requires position + |UserText(Record())| <= ret.Length
      modifies ret
      ensures next == position + |UserText(Record())|
      ensures ret[..next] == old(ret[..position]) + UserText(Record())
    {
      next := position;
      if user.Some? {
        next := Append(ret, next, user.value);
        next := Append(ret, next, "@");
      }
    }

    method PrintPort(ret: array<char>, position: nat) returns (next: nat)
      requires Printable(Record())
      requires position + |PortText(Record())| <= ret.Length
      modifies ret
      ensures next == position + |PortText(Record())|
      ensures ret[..next] == old(ret[..position]) + PortText(Record())
    {
      next := position;
      if port != 0 {
        hide Decimal, Text;
        Assoc(ret[..position], ":", Decimal(port));
        var portText := FormatPort(port);
        next := Append(ret, next, ":");
        next := Append(ret, next, portText);
      }
    }

    method PrintRest(ret: array<char>, position: nat) returns (next: nat)
      requires position + |Text(path)| + |Prefixed('?', query)| + |Prefixed('#', fragment)| <= ret.Length
      modifies ret
      ensures next == position + |Text(path)| + |Prefixed('?', query)| + |Prefixed('#', fragment)|
      ensures ret[..next] == old(ret[..position]) + Text(path) + Prefixed('?', query) + Prefixed('#', fragment)
    {
      next := Append(ret, position, Text(path));
      next := AppendPrefixed(ret, next, '?', query);
      next := AppendPrefixed(ret, next, '#', fragment);
    }

    /** The size of the buffer, summed up field by field. */
    method SumSizes() returns (rlen: nat)
      ensures rlen == BufferSize(Record())
    {
      var schemeSize := if scheme.Some? then |scheme.value| else 0;
      var hostSize := if host.Some? then |host.value| else 0;
      var staticPart := 3 + 4;
      var userSize, extra := SizeOf(user);
      staticPart := staticPart + extra;
      if port != 0 {
        staticPart := staticPart + 1;
      }
      var pathSize, _ := SizeOf(path);
      var querySize, fragmentSize;
      querySize, extra := SizeOf(query);
      staticPart := staticPart + extra;
      fragmentSize, extra := SizeOf(fragment);
      staticPart := staticPart + extra;
      rlen := schemeSize + userSize + hostSize + pathSize + querySize + fragmentSize + staticPart + 1;
    }

    /** All pieces, one behind the other. */
    method PrintAll(ret: array<char>) returns (position: nat)
      requires Printable(Record())
      requires |Render(Record())| <= ret.Length
      modifies ret
      ensures position == |Render(Record())| && ret[..position] == Render(Record())
    {
      ghost var f := Record();
      RenderLength(f);
      RenderInOrder(f);
      assert f.scheme == scheme && f.host == host && f.path == path && f.query == query && f.fragment == fragment;
      hide *;
      position := Append(ret, 0, Text(scheme));
      assert ret[..position] == Text(f.scheme);
      position := PrintSeparator(ret, position);
      position := PrintUser(ret, position);
      position := Append(ret, position, Text(host));
      position := PrintPort(ret, position);
      position := PrintRest(ret, position);
    }

    /** `ta_iri_to_string`: the text and its NUL, in a buffer of the size computed before. */
    method ToString() returns (ret: array<char>)
      requires Printable(Record())
      ensures fresh(ret) && ret.Length == BufferSize(Record())
      ensures Holds(ret, Render(Record()))
      ensures Holds(ret,
          (if scheme.Some? then scheme.value else "")
          + (if host.None? then ":" else if scheme.Some? then "://" else "")
          + (if user.Some? then user.value + "@" else "")
          + (if host.Some? then host.value else "")
          + (if port != 0 then ":" + Decimal(port) else "")
          + (if path.Some? then path.value else "")
          + (if query.Some? then "?" + query.value else "")
          + (if fragment.Some? then "#" + fragment.value else ""))
    {
      RenderSpelledOut(Record());
      BufferIsEnough(Record());
      SeparatorLength(Record());
      hide Render, BufferSize, Separator, Decimal;
      var rlen := SumSizes();
      ret := new char[rlen];
      var position := PrintAll(ret);
      ghost var text := ret[..position];
      ret[position] := '\0';
      assert ret[..position] == text;
    }
  }

  // ---------------------------------------------------------------- printed and parsed again

  /** The fields are C strings: none holds a NUL. */
  ghost predicate CStrings(f: Fields) {
    && '\0' !in Text(f.scheme) && '\0' !in Text(f.user) && '\0' !in Text(f.host) && '\0' !in Text(f.path)
    && '\0' !in Text(f.query) && '\0' !in Text(f.fragment)
  }

  lemma {:induction false} RenderIsCString(f: Fields)
    requires CStrings(f)
    ensures '\0' !in Render(f)
  {
    assert '\0' !in Separator(f) && '\0' !in UserText(f) && '\0' !in PortText(f);
    assert '\0' !in Prefixed('?', f.query) && '\0' !in Prefixed('#', f.fragment);
  }

  /** The text of a C string. */
  method ReadString(buffer: array<char>, ghost text: string) returns (s: string)
    requires Holds(buffer, text) && '\0' !in text
    ensures s == text
  {
    var n := 0;
    assert forall i | 0 <= i < |text| :: buffer[i] == buffer[..|text|][i];
    while buffer[n] != '\0'
      invariant n <= |text|
      invariant forall i | 0 <= i < |text| :: buffer[i] != '\0'
      decreases |text| - n
    {
      n := n + 1;
    }
    s := buffer[..n];
  }

  /** A client prints an object and has the text parsed into a fresh one: the two agree exactly if the record satisfies
    the condition of `RoundTripExact`. */
  method Reread(iri: Iri) returns (ok: bool, copy: Iri)
    requires Printable(iri.Record()) && CStrings(iri.Record())
    ensures fresh(copy) && (ok, copy.Record()) == Parse(Render(iri.Record()), BLANK)
    ensures var f := iri.Record();
      ok && copy.Record() == f <==> if f.host.None? then OpaqueShape(f) else IriAuthority.AuthoritySurvives(f)
  {
    ghost var f := iri.Record();
    RenderIsCString(f);
    IriAuthority.RoundTripExact(f);
    hide Parse, Render, BufferSize, OpaqueShape, IriAuthority.AuthoritySurvives, CStrings, Decimal;
    var buffer := iri.ToString();
    var text := ReadString(buffer, Render(f));
    copy := new Iri();
    ok := copy.SetFromString(text);
  }
}
