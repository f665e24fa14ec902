/** What the IRI parser and printer of `src/iri.c` compute.

  A C string is a sequence of characters; reading at its end yields NUL.  Character classes are those of the
  C locale. */
module IriSpec {
  import opened Options

  /** The fields of `ta_iri_t`. */
  datatype Fields = Fields(scheme: Option<string>, user: Option<string>, host: Option<string>, port: int,
                           path: Option<string>, query: Option<string>, fragment: Option<string>)

  /** `ta_iri_init`. */
  const BLANK := Fields(None, None, None, 0, None, None, None)

  predicate IsAlpha(c: char) { 'a' <= c <= 'z' || 'A' <= c <= 'Z' }

  predicate IsDigit(c: char) { '0' <= c <= '9' }

  predicate IsSchemeChar(c: char) { IsAlpha(c) || IsDigit(c) || c == '-' || c == '+' || c == '.' }

  function CharAt(s: string, i: nat): (c: char) {
    if i < |s| then s[i] else '\0'
  }

  /** The length of the longest prefix of `t` that avoids `stops`; `strchr` for a single character. */
  function Span(t: string, stops: string): (n: nat)
    ensures n <= |t|
    ensures forall i | 0 <= i < n :: t[i] !in stops
    ensures n < |t| ==> t[n] in stops
  {
    if t == [] || t[0] in stops then 0 else 1 + Span(t[1..], stops)
  }

  function SchemeRun(t: string): (n: nat)
    ensures n <= |t|
    ensures forall i | 0 <= i < n :: IsSchemeChar(t[i])
    ensures n < |t| ==> !IsSchemeChar(t[n])
  {
    if t == [] || !IsSchemeChar(t[0]) then 0 else 1 + SchemeRun(t[1..])
  }

  function DigitRun(t: string): (n: nat)
    ensures n <= |t|
    ensures forall i | 0 <= i < n :: IsDigit(t[i])
    ensures n < |t| ==> !IsDigit(t[n])
  {
    if t == [] || !IsDigit(t[0]) then 0 else 1 + DigitRun(t[1..])
  }

  function DigitValue(c: char): (v: nat)
    requires IsDigit(c)
  {
    c as nat - '0' as nat
  }

  /** `atoi` on digits, without the overflow. */
  function Atoi(t: string): (v: nat)
    requires forall i | 0 <= i < |t| :: IsDigit(t[i])
  {
    if t == [] then 0 else 10 * Atoi(t[..|t| - 1]) + DigitValue(t[|t| - 1])
  }

  // ---------------------------------------------------------------- parsing

  /** Query and fragment: the query starts at the first `?`, the fragment at the first `#` after that. */
  function ParseTail(rest: string, f: Fields): (r: Fields) {
    var q := Span(rest, "?");
    if q < |rest| then
      var tail := rest[q + 1..];
      var g := Span(tail, "#");
      if g < |tail| then f.(query := Some(tail[..g]), fragment := Some(tail[g + 1..]))
      else f.(query := Some(tail))
    else
      var g := Span(rest, "#");
      if g < |rest| then f.(fragment := Some(rest[g + 1..])) else f
  }

  /** Where the host starts in an authority: behind the first `@`, wherever it stands. */
  function HostStart(t: string): (hs: nat)
    ensures hs <= |t|
  {
    var u := Span(t, "@");
    if u < |t| then u + 1 else 0
  }

  /** Where the port scan stops. */
  function PortStop(t: string): (c: nat)
    ensures c <= |t|
  {
    HostStart(t) + Span(t[HostStart(t)..], ":?#")
  }

  predicate HasPort(t: string) {
    PortStop(t) < |t| && t[PortStop(t)] == ':'
  }

  /** How many digits follow the colon. */
  function PortDigits(t: string): (n: nat)
    requires HasPort(t)
    ensures PortStop(t) + 1 + n <= |t|
  {
    DigitRun(t[PortStop(t) + 1..])
  }

  /** Where the host ends: at the port, or else at the query, the fragment, the path, the end. */
  function HostEnd(t: string): (he: nat)
    ensures he <= |t|
  {
    if HasPort(t) then PortStop(t)
    else if Span(t, "?") < |t| then Span(t, "?")
    else if Span(t, "#") < |t| then Span(t, "#")
    else Span(t, "/")
  }

  /** `strndup` takes its length as a `size_t`: a negative one means all that is left. */
  function Host(t: string): (h: string) {
    if HostStart(t) <= HostEnd(t) then t[HostStart(t)..HostEnd(t)] else t[HostStart(t)..]
  }

  /** The path starts at the first `/`, wherever it stands, and ends before the next `?` or `#`. */
  function PathFrom(t: string): (p: string) {
    t[Span(t, "/")..][..Span(t[Span(t, "/")..], "?#")]
  }

  /** What follows `//`. */
  function ParseAuthority(t: string, f: Fields): (r: (bool, Fields)) {
    var u := Span(t, "@");
    var f1 := if u < |t| then f.(user := Some(t[..u])) else f;
    if HasPort(t) && PortDigits(t) == 0 then (false, f1)
    else
      var f2 := if HasPort(t) then
                  var c := PortStop(t);
                  var digits := t[c + 1..][..PortDigits(t)];
                  f1.(port := Atoi(digits))
                else f1;
      var f3 := if Span(t, "/") < |t| then f2.(path := Some(PathFrom(t))) else f2;
      (true, f3.(host := Some(Host(t))))
  }

  /** What stands between the scheme colon and the query or, without one, the fragment. */
  function OpaquePath(rest: string): (p: string) {
    if Span(rest, "?") < |rest| then rest[..Span(rest, "?")] else rest[..Span(rest, "#")]
  }

  /** What follows the scheme colon. */
  function ParseRest(rest: string, f: Fields): (r: (bool, Fields)) {
    var f1 := ParseTail(rest, f);
    if |rest| >= 2 && rest[0] == '/' && rest[1] == '/' then ParseAuthority(rest[2..], f1)
    else (true, f1.(path := Some(OpaquePath(rest))))
  }

  predicate SchemeOk(s: string) {
    && s != [] && IsAlpha(s[0])
    && SchemeRun(s) < |s| && s[SchemeRun(s)] == ':'
  }

  /** `ta_iri_set_from_string` on an object with the fields `f`: the success, and the fields afterwards. */
  function Parse(s: string, f: Fields): (r: (bool, Fields)) {
    if !SchemeOk(s) then (false, f)
    else
      var p := SchemeRun(s);
      ParseRest(s[p + 1..], f.(scheme := Some(s[..p])))
  }

  // ---------------------------------------------------------------- printing

  function Digits(n: nat): (t: string)
    ensures |t| >= 1 && forall i | 0 <= i < |t| :: IsDigit(t[i])
  {
    if n < 10 then [('0' as nat + n) as char] else Digits(n / 10) + [('0' as nat + n % 10) as char]
  }

  /** `sprintf` with `%d`. */
  function Decimal(n: int): (t: string) {
    if n < 0 then "-" + Digits(-n) else Digits(n)
  }

  function Text(o: Option<string>): (t: string) {
    if o.Some? then o.value else ""
  }

  function Prefixed(c: char, o: Option<string>): (t: string) {
    if o.Some? then [c] + o.value else ""
  }

  function Separator(f: Fields): (t: string) {
    if f.host.None? then ":" else if f.scheme.Some? then "://" else ""
  }

  function UserText(f: Fields): (t: string) {
    if f.user.Some? then f.user.value + "@" else ""
  }

  function PortText(f: Fields): (t: string) {
    if f.port != 0 then ":" + Decimal(f.port) else ""
  }

  /** All that follows the separator. */
  function RenderRest(f: Fields): (t: string) {
    UserText(f) + (Text(f.host) + (PortText(f) + (Text(f.path) + (Prefixed('?', f.query) + Prefixed('#', f.fragment)))))
  }

  /** The string `ta_iri_to_string` builds. */
  function Render(f: Fields): (t: string) {
    Text(f.scheme) + (Separator(f) + RenderRest(f))
  }

  /** The size of the buffer it allocates. */
  function BufferSize(f: Fields): (n: nat) {
    |Text(f.scheme)| + |Text(f.user)| + |Text(f.host)| + |Text(f.path)| + |Text(f.query)| + |Text(f.fragment)|
    + 7 + (if f.user.Some? then 1 else 0) + (if f.port != 0 then 1 else 0)
    + (if f.query.Some? then 1 else 0) + (if f.fragment.Some? then 1 else 0) + 1
  }

  /** What is printed, piece by piece. */
  lemma {:induction false} RenderSpelledOut(f: Fields)
    ensures Render(f)
            == (if f.scheme.Some? then f.scheme.value else "")
               + (if f.host.None? then ":" else if f.scheme.Some? then "://" else "")
               + (if f.user.Some? then f.user.value + "@" else "")
               + (if f.host.Some? then f.host.value else "")
               + (if f.port != 0 then ":" + Decimal(f.port) else "")
               + (if f.path.Some? then f.path.value else "")
               + (if f.query.Some? then "?" + f.query.value else "")
               + (if f.fragment.Some? then "#" + f.fragment.value else "")
  {
    hide Decimal;
    FromTheLeft(Text(f.scheme), Separator(f), UserText(f), Text(f.host), PortText(f), Text(f.path),
                Prefixed('?', f.query), Prefixed('#', f.fragment));
  }

  lemma {:induction false} FromTheLeft(a: string, b: string, c: string, d: string,
                                       e: string, g: string, h: string, i: string)
    ensures a + (b + (c + (d + (e + (g + (h + i)))))) == a + b + c + d + e + g + h + i
  {
    Assoc(a, b, c + (d + (e + (g + (h + i)))));
    Assoc(a + b, c, d + (e + (g + (h + i))));
    Assoc(a + b + c, d, e + (g + (h + i)));
    Assoc(a + b + c + d, e, g + (h + i));
    Assoc(a + b + c + d + e, g, h + i);
    Assoc(a + b + c + d + e + g, h, i);
  }

  lemma {:induction false} Assoc(a: string, b: string, c: string)
    ensures (a + b) + c == a + (b + c)
  {}

  /** The buffer holds the text and its NUL exactly if the port text fits what the separator leaves of its seven
    characters: four beside `://`, six beside `:`, seven without a separator.  What both leave of it
    stays unused. */
  lemma {:induction false} BufferIsEnough(f: Fields)
    ensures |Render(f)| + 1 <= BufferSize(f) <==> f.port == 0 || |Decimal(f.port)| <= 7 - |Separator(f)|
    ensures |Separator(f)| == if f.host.None? then 1 else if f.scheme.Some? then 3 else 0
    ensures BufferSize(f) + |Separator(f)| + (if f.port == 0 then 0 else |Decimal(f.port)|) == |Render(f)| + 1 + 7
  {}

  lemma {:induction false} DigitsLength(n: nat, k: nat)
    requires k > 0
    ensures |Digits(n)| <= k <==> n < Pow10(k)
  {
    if n >= 10 {
      if k > 1 {
        DigitsLength(n / 10, k - 1);
      }
    } else {
      Pow10Grows(k);
    }
  }

  function Pow10(k: nat): (p: nat) {
    if k == 0 then 1 else 10 * Pow10(k - 1)
  }

  lemma {:induction false} Pow10Grows(k: nat)
    requires k > 0
    ensures Pow10(k) >= 10
  {
    if k > 1 { Pow10Grows(k - 1); }
  }

  /** In particular it holds every port of up to four digits, whatever fields are present. */
  lemma {:induction false} BufferHoldsFourDigits(f: Fields)
    requires 0 <= f.port <= 9999
    ensures |Render(f)| + 1 <= BufferSize(f)
  {
    BufferIsEnough(f);
    DigitsLength(f.port, 4);
    assert Pow10(4) == 10 * (10 * (10 * Pow10(1))) && Pow10(1) == 10 * Pow10(0);
  }

  /** The port fits the printer's local buffer of four characters. */
  predicate Printable(f: Fields) {
    f.port == 0 || |Decimal(f.port)| <= 3
  }

  /** The local buffer of the port holds it exactly in this range. */
  lemma {:induction false} PortFitsLocalBuffer(port: int)
    ensures |Decimal(port)| <= 3 <==> -99 <= port <= 999
  {
    assert Pow10(3) == 10 * Pow10(2) && Pow10(2) == 10 * Pow10(1) && Pow10(1) == 10 * Pow10(0);
    if port < 0 {
      DigitsLength(-port, 2);
    } else {
      DigitsLength(port, 3);
    }
  }

  /** The ten digits have their values. */
  lemma {:induction false} AtoiOfDigit()
    ensures Atoi("0") == 0 && Atoi("1") == 1 && Atoi("2") == 2 && Atoi("3") == 3 && Atoi("4") == 4
    ensures Atoi("5") == 5 && Atoi("6") == 6 && Atoi("7") == 7 && Atoi("8") == 8 && Atoi("9") == 9
  {
    assert forall d: string | |d| == 1 && IsDigit(d[0]) :: Atoi(d) == DigitValue(d[0]) by {
      forall d: string | |d| == 1 && IsDigit(d[0]) ensures Atoi(d) == DigitValue(d[0]) {
        assert d[..0] == "";
      }
    }
  }

  /** Digits count by their place: each one further to the left is worth ten times as much. */
  lemma {:induction false} AtoiByPlace(a: string, b: string)
    requires forall i | 0 <= i < |a| :: IsDigit(a[i])
    requires forall i | 0 <= i < |b| :: IsDigit(b[i])
    ensures Pow10(0) == 1 && Pow10(|b| + 1) == 10 * Pow10(|b|)
    ensures Atoi(a + b) == Atoi(a) * Pow10(|b|) + Atoi(b)
    decreases |b|
  {
    if b == "" {
      assert a + b == a;
    } else {
      var c := b[..|b| - 1];
      AtoiByPlace(a, c);
      assert (a + b)[..|a + b| - 1] == a + c && (a + b)[|a + b| - 1] == b[|b| - 1];
      TenTimes(Atoi(a), Pow10(|c|));
    }
  }

  lemma {:induction false} TenTimes(a: nat, p: nat)
    ensures 10 * (a * p) == a * (10 * p)
  {}

  /** Leading zeros are worth nothing. */
  lemma {:induction false} AtoiOfLeadingZero(t: string)
    requires forall i | 0 <= i < |t| :: IsDigit(t[i])
    ensures Atoi("0" + t) == Atoi(t)
  {
    AtoiByPlace("0", t);
    AtoiOfDigit();
  }

  lemma {:induction false} AtoiOfDigits(n: nat)
    ensures Atoi(Digits(n)) == n
  {
    if n >= 10 {
      AtoiOfDigits(n / 10);
      var t := Digits(n);
      assert t[..|t| - 1] == Digits(n / 10);
    }
  }

  lemma {:induction false} DigitsStep(n: nat, d: nat)
    requires n > 0 && d < 10
    ensures Digits(10 * n + d) == Digits(n) + [('0' as nat + d) as char]
  {
    assert (10 * n + d) / 10 == n && (10 * n + d) % 10 == d;
  }

  /** Without a leading zero, the digits of the value of a number are its digits again. */
  lemma {:induction false} DigitsOfAtoi(t: string)
    requires t != "" && (forall i | 0 <= i < |t| :: IsDigit(t[i])) && (t[0] == '0' ==> |t| == 1)
    ensures Digits(Atoi(t)) == t
  {
    var c, d := t[..|t| - 1], t[|t| - 1];
    assert t == c + [d] && ('0' as nat + DigitValue(d)) as char == d;
    if c != "" {
      DigitsOfAtoi(c);
      PositiveFirst(c);
      hide Digits;
      DigitsStep(Atoi(c), DigitValue(d));
    }
  }

  lemma {:induction false} PositiveFirst(t: string)
    requires t != "" && (forall i | 0 <= i < |t| :: IsDigit(t[i])) && t[0] != '0'
    ensures Atoi(t) > 0
  {
    if |t| > 1 {
      PositiveFirst(t[..|t| - 1]);
    }
  }

  /** A printed port is a sign if it is negative, and digits without leading zeros that have its value. */
  lemma {:induction false} DecimalIs(n: int)
    ensures n >= 0 ==> (forall i | 0 <= i < |Decimal(n)| :: IsDigit(Decimal(n)[i])) && Atoi(Decimal(n)) == n
    ensures n > 0 ==> Decimal(n)[0] != '0'
    ensures n == 0 ==> Decimal(n) == "0"
    ensures n < 0 ==> Decimal(n) == "-" + Decimal(-n)
  {
    AtoiOfDigits(if n < 0 then -n else n);
    if n > 0 {
      NoLeadingZero(n);
    }
  }

  lemma {:induction false} NoLeadingZero(n: nat)
    requires n > 0
    ensures Digits(n)[0] != '0'
  {
    if n >= 10 {
      NoLeadingZero(n / 10);
    }
  }
}
