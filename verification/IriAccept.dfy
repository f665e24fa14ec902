/** Which strings `ta_iri_set_from_string` accepts (`src/iri.c`). */
module IriAccept {
  import opened IriSpec
  import opened IriRoundTrip
  import opened Options

  /** The characters of section 3.1 of RFC 3986. */
  predicate IsLetter(c: char) {
    c in "ABCDEFGHIJKLMNOPQRSTUVWXYZ" || c in "abcdefghijklmnopqrstuvwxyz"
  }

  predicate IsLetterDigitOrSign(c: char) {
    IsLetter(c) || c in "0123456789" || c in "+-."
  }

  predicate IsSchemeText(x: string) {
    x != "" && IsLetter(x[0]) && forall i | 0 <= i < |x| :: IsLetterDigitOrSign(x[i])
  }

  /** `hs` is the start of the host: behind the first `@`, or else the start of the text. */
  ghost predicate StartsHost(t: string, hs: nat) {
    || (hs == 0 && Avoids(t, "@"))
    || (0 < hs <= |t| && t[hs - 1] == '@' && Avoids(t[..hs - 1], "@"))
  }

  /** A colon that the port scan reaches from `hs`, with no other colon, `?` or `#` on the way. */
  ghost predicate PortColon(t: string, hs: nat, c: nat) {
    hs <= c < |t| && t[c] == ':' && Avoids(t[hs..c], ":?#")
  }

  /** A port colon is followed by a digit. */
  ghost predicate PortOk(t: string) {
    forall hs: nat, c: nat | StartsHost(t, hs) && PortColon(t, hs, c) :: c + 1 < |t| && t[c + 1] in "0123456789"
  }

  /** The text before a colon is a scheme, and an authority behind it has a proper port if any. */
  ghost predicate AcceptedAt(s: string, p: nat) {
    && p < |s| && s[p] == ':' && IsSchemeText(s[..p])
    && (StartsWithSlashes(s[p + 1..]) ==> PortOk(s[p + 1..][2..]))
  }

  lemma {:induction false} LettersAre(c: char)
    ensures IsAlpha(c) <==> IsLetter(c)
  {}

  lemma {:induction false} DigitsAre(c: char)
    ensures IsDigit(c) <==> c in "0123456789"
  {}

  lemma {:induction false} SchemeCharsAre(c: char)
    ensures IsSchemeChar(c) <==> IsLetterDigitOrSign(c)
  {
    LettersAre(c);
    DigitsAre(c);
  }

  /** The classes the parser works with are these characters. */
  lemma {:induction false} SchemeTextIs(x: string)
    ensures SchemeShape(x) <==> IsSchemeText(x)
  {
    hide IsAlpha, IsLetter, IsSchemeChar, IsLetterDigitOrSign;
    forall i | 0 <= i < |x|
      ensures IsSchemeChar(x[i]) <==> IsLetterDigitOrSign(x[i])
      ensures IsAlpha(x[i]) <==> IsLetter(x[i]) {
      SchemeCharsAre(x[i]);
      LettersAre(x[i]);
    }
  }

  lemma {:induction false} HostStartIsUnique(t: string, hs: nat)
    ensures StartsHost(t, hs) <==> hs == HostStart(t)
  {
    var u := Span(t, "@");
    SpanAvoids(t, "@");
    SpanAll(t, "@");
    if StartsHost(t, hs) && hs > 0 {
      SpanIs(t, "@", hs - 1);
    }
  }

  lemma {:induction false} FirstStop(b: string, n: nat)
    requires n < |b| && b[n] in ":?#"
    ensures Avoids(b[..n], ":?#") <==> n == Span(b, ":?#")
  {
    SpanAvoids(b, ":?#");
    if Avoids(b[..n], ":?#") {
      SpanIs(b, ":?#", n);
    }
  }

  lemma {:induction false} PortColonIsUnique(t: string, c: nat)
    ensures PortColon(t, HostStart(t), c) <==> HasPort(t) && c == PortStop(t)
  {
    var hs := HostStart(t);
    if hs <= c < |t| && t[c] == ':' {
      assert t[hs..][c - hs] == t[c] && t[hs..][..c - hs] == t[hs..c];
      hide HostStart, Span;
      FirstStop(t[hs..], c - hs);
    }
  }

  lemma {:induction false} DigitsAfterColon(t: string)
    requires HasPort(t)
    ensures PortDigits(t) > 0 <==> PortStop(t) + 1 < |t| && t[PortStop(t) + 1] in "0123456789"
  {
    if PortStop(t) + 1 < |t| {
      DigitsAre(t[PortStop(t) + 1]);
    }
    assert t[PortStop(t) + 1..] != [] ==> t[PortStop(t) + 1..][0] == t[PortStop(t) + 1];
  }

  lemma {:induction false} AuthorityAccepted(t: string, f: Fields)
    ensures ParseAuthority(t, f).0 <==> PortOk(t)
  {
    var hs, c := HostStart(t), PortStop(t);
    assert ParseAuthority(t, f).0 <==> !(HasPort(t) && PortDigits(t) == 0);
    HostStartIsUnique(t, hs);
    PortColonIsUnique(t, c);
    if HasPort(t) {
      DigitsAfterColon(t);
    }
    forall hs': nat, c': nat | StartsHost(t, hs') && PortColon(t, hs', c')
      ensures HasPort(t) && c' == c
    {
      HostStartIsUnique(t, hs');
      PortColonIsUnique(t, c');
    }
  }

  lemma {:induction false} SchemeColon(s: string, p: nat)
    requires p < |s| && s[p] == ':' && SchemeShape(s[..p])
    ensures SchemeOk(s) && p == SchemeRun(s)
  {
    Rejoin(s, p);
    SchemeRunSkip(s[..p], s[p + 1..]);
    assert s[..p][0] == s[0];
  }

  lemma {:induction false} RestAccepted(rest: string, f: Fields)
    ensures ParseRest(rest, f).0 <==> StartsWithSlashes(rest) ==> PortOk(rest[2..])
  {
    hide PortOk, ParseTail;
    if StartsWithSlashes(rest) {
      AuthorityAccepted(rest[2..], ParseTail(rest, f));
    }
  }

  lemma {:induction false} SchemeIsShaped(s: string)
    requires SchemeOk(s)
    ensures SchemeShape(s[..SchemeRun(s)])
  {
    var x := s[..SchemeRun(s)];
    assert IsSchemeChar(s[0]) && x[0] == s[0];
    assert forall i | 0 <= i < |x| :: x[i] == s[i];
  }

  /** Nothing but scheme characters stands before the colon at `k`. */
  ghost predicate ColonBehindScheme(s: string, k: nat) {
    k < |s| && s[k] == ':' && forall i | 0 <= i < k :: IsLetterDigitOrSign(s[i])
  }

  lemma {:induction false} ColonIsBehindRun(s: string)
    ensures SchemeRun(s) < |s| && s[SchemeRun(s)] == ':' <==> exists k: nat :: ColonBehindScheme(s, k)
    ensures forall k: nat | ColonBehindScheme(s, k) :: k == SchemeRun(s)
    ensures SchemeRun(s) < |s| && s[SchemeRun(s)] == ':' ==> ColonBehindScheme(s, SchemeRun(s))
  {
    var n := SchemeRun(s);
    assert !IsSchemeChar(':');
    hide IsSchemeChar, IsLetterDigitOrSign;
    forall i | 0 <= i < |s|
      ensures IsSchemeChar(s[i]) <==> IsLetterDigitOrSign(s[i]) {
      SchemeCharsAre(s[i]);
    }
    assert n < |s| ==> !IsLetterDigitOrSign(s[n]);
    if n < |s| && s[n] == ':' {
      assert ColonBehindScheme(s, n);
    }
    forall k: nat | ColonBehindScheme(s, k)
      ensures k == n {
    }
  }

  lemma {:induction false} SchemeEnds(s: string)
    requires SchemeOk(s)
    ensures SchemeRun(s) < |s| && s[SchemeRun(s)] == ':'
  {}

  lemma {:induction false} AcceptedScheme(s: string, p: nat)
    ensures AcceptedAt(s, p) <==>
            SchemeOk(s) && p == SchemeRun(s) && (StartsWithSlashes(s[p + 1..]) ==> PortOk(s[p + 1..][2..]))
  {
    hide PortOk, StartsWithSlashes, IsSchemeText, SchemeShape, SchemeOk;
    if p <= |s| {
      SchemeTextIs(s[..p]);
    }
    if AcceptedAt(s, p) {
      SchemeColon(s, p);
    }
    if SchemeOk(s) {
      SchemeEnds(s);
      SchemeIsShaped(s);
    }
  }

  lemma {:induction false} ParseNeedsScheme(s: string, f: Fields)
    ensures Parse(s, f).0 ==> SchemeOk(s)
    ensures SchemeOk(s) ==> Parse(s, f) == ParseRest(s[SchemeRun(s) + 1..], f.(scheme := Some(s[..SchemeRun(s)])))
  {
    hide ParseRest;
  }

  lemma {:induction false} AcceptedWhere(s: string, p: nat, f: Fields)
    ensures AcceptedAt(s, p) <==> Parse(s, f).0 && p == SchemeRun(s)
  {
    hide PortOk, StartsWithSlashes, Parse, ParseRest, AcceptedAt, SchemeRun;
    AcceptedScheme(s, p);
    ParseNeedsScheme(s, f);
    if SchemeOk(s) && p == SchemeRun(s) {
      RestAccepted(s[p + 1..], f.(scheme := Some(s[..p])));
    }
  }

  /** The parser succeeds on exactly the accepted strings, whatever the object held before. */
  lemma {:induction false} SucceedsExactlyOnAccepted(s: string, f: Fields)
    ensures Parse(s, f).0 <==> exists p :: AcceptedAt(s, p)
  {
    AcceptedWhere(s, SchemeRun(s), f);
    forall p | AcceptedAt(s, p)
      ensures Parse(s, f).0
    {
      AcceptedWhere(s, p, f);
    }
  }
}
