/**
 Masking of secret tokens with a known prefix; the keys and prefixes that are masked.
 */
module SecretTokens {
  import opened Widths
  import opened Wrappers
  import opened Utf8
  import opened Redactor
  import opened TraceMasker

  /** Whether the byte before `p` belongs to the same token. */
  predicate InToken(joined: bool, s: seq<Byte>, p: nat)
    requires p <= |s|
  {
    if p > 0 then SecretByte(s[p - 1]) else joined
  }

  function TokenAction(prefix: seq<Byte>, joined: bool, s: seq<Byte>): Action {
    var found := Find(s, prefix);
    if found.None? then Stop
    else
      var p, a := found.value, found.value + |prefix|;
      var end := Skip(s, a, SecretByte);
      if InToken(joined, s, p) || end == a then Leave(a) else Redact(p, end)
  }

  /** `m` masks the secret tokens that start with `prefix`. */
  ghost predicate MasksTokens(m: Masker, prefix: seq<Byte>) {
    && m.inClass == SecretByte
    && forall joined, s {:trigger Decision(m, joined, s)} :: Decision(m, joined, s) == TokenAction(prefix, joined, s)
  }

  function TokenMasker(prefix: seq<Byte>, marker: seq<Byte>): Masker {
    Masker((joined: bool, s: seq<Byte>) => TokenAction(prefix, joined, s), SecretByte, marker)
  }

  method MaskPrefixedToken(text: seq<Byte>, prefix: seq<Byte>) returns (value: seq<Byte>)
    requires prefix != []
    ensures value == Rewrite(TokenMasker(prefix, REDACTED), false, text)
  {
    value := MaskTokenLoop(text, prefix, REDACTED, TokenMasker(prefix, REDACTED));
  }

  method MaskTokenLoop(text: seq<Byte>, prefix: seq<Byte>, marker: seq<Byte>, ghost m: Masker)
    returns (value: seq<Byte>)
    requires prefix != [] && marker != [] && m.marker == marker && MasksTokens(m, prefix)
    ensures value == Rewrite(m, false, text)
  {
    value := text;
    var from, more := 0, true;
    SettledFromStart(m, value);
    while more
      invariant 0 <= from <= |value| && Settled(m, value, from) == Rewrite(m, false, text)
      invariant !more ==> value == Settled(m, value, from)
      decreases more, |value| - from
    {
      var action := NextToken(value, from, prefix);
      TokenFits(prefix, JoinedAt(m, value, from), value[from..]);
      value, from, more := Apply(value, from, action, marker, m);
    }
  }

  lemma TokenFits(prefix: seq<Byte>, joined: bool, s: seq<Byte>)
    requires prefix != []
    ensures Fits(TokenAction(prefix, joined, s), s)
  {
  }

  method NextToken(value: seq<Byte>, from: nat, prefix: seq<Byte>) returns (a: Action)
    requires prefix != [] && from <= |value|
    ensures a == Shift(TokenAction(prefix, from > 0 && SecretByte(value[from - 1]), value[from..]), from)
  {
    var found := Find(value[from..], prefix);
    if found.None? { return Stop; }
    var start := from + found.value;
    var after := start + |prefix|;
    SkipShifts(value, from, after, SecretByte);
    if start > 0 && SecretByte(value[start - 1]) { return Leave(after); }
    var end := SkipWhile(value, after, SecretByte);
    if end == after { return Leave(end); }
    return Redact(start, end);
  }

  // ---------------------------------------------------------------- masking tokens twice

  /** A prefix that can neither begin inside the marker nor contain the marker's first byte. */
  ghost predicate ProperPrefix(prefix: seq<Byte>, marker: seq<Byte>) {
    && prefix != [] && marker != []
    && (forall i :: 0 <= i < |marker| ==> Lower(marker[i]) != prefix[0])
    && (forall k :: 0 <= k < |prefix| ==> Lower(marker[0]) != prefix[k])
    && !SecretByte(marker[0])
  }

  /** No occurrence begins before the end of a marker that replaced the first one. */
  lemma NothingBeforeMarkerEnds(prefix: seq<Byte>, marker: seq<Byte>, s: seq<Byte>, rest: seq<Byte>, q: nat)
    requires ProperPrefix(prefix, marker) && Find(s, prefix).Some?
    requires q < Find(s, prefix).value + |marker|
    ensures !MatchesAt(s[..Find(s, prefix).value] + marker + rest, prefix, q)
  {
    var p := Find(s, prefix).value;
    var r := s[..p] + marker + rest;
    FindFromFindsFirst(s, prefix, 0);
    if q + |prefix| <= |r| {
      if q >= p {
        assert r[q + 0] == marker[q - p] && Lower(r[q + 0]) != prefix[0];
      } else if q + |prefix| > p {
        assert r[q + (p - q)] == marker[0] && Lower(r[q + (p - q)]) != prefix[p - q];
      } else {
        assert !MatchesAt(s, prefix, q);
        var k :| 0 <= k < |prefix| && Lower(s[q + k]) != prefix[k];
        assert r[q + k] == s[q + k];
      }
    }
  }

  lemma MatchBehind(x: seq<Byte>, t: seq<Byte>, prefix: seq<Byte>, q: nat)
    ensures MatchesAt(x + t, prefix, |x| + q) <==> MatchesAt(t, prefix, q)
  {
    if q + |prefix| <= |t| {
      assert forall k {:trigger prefix[k]} :: 0 <= k < |prefix| ==> (x + t)[|x| + q + k] == t[q + k];
    }
  }

  /** Where nothing begins inside `x`, a search through `x + t` is a search through `t`. */
  lemma FindBehind(x: seq<Byte>, t: seq<Byte>, prefix: seq<Byte>)
    requires forall q :: 0 <= q < |x| ==> !MatchesAt(x + t, prefix, q)
    ensures Find(x + t, prefix) == match Find(t, prefix) case None => None case Some(p) => Some(|x| + p)
  {
    if Find(t, prefix).Some? {
      FoundBehind(x, t, prefix, Find(t, prefix).value);
    } else {
      NotFoundBehind(x, t, prefix);
    }
  }

  lemma FoundBehind(x: seq<Byte>, t: seq<Byte>, prefix: seq<Byte>, p: nat)
    requires forall q :: 0 <= q < |x| ==> !MatchesAt(x + t, prefix, q)
    requires Find(t, prefix) == Some(p)
    ensures Find(x + t, prefix) == Some(|x| + p)
  {
    FindFromFindsFirst(t, prefix, 0);
    forall q | 0 <= q < |x| + p ensures !MatchesAt(x + t, prefix, q) {
      if q >= |x| {
        MatchBehind(x, t, prefix, q - |x|);
      }
    }
    MatchBehind(x, t, prefix, p);
    FindIs(x + t, prefix, |x| + p);
  }

  lemma NotFoundBehind(x: seq<Byte>, t: seq<Byte>, prefix: seq<Byte>)
    requires forall q :: 0 <= q < |x| ==> !MatchesAt(x + t, prefix, q)
    requires Find(t, prefix).None?
    ensures Find(x + t, prefix).None?
  {
    FindFromFindsFirst(t, prefix, 0);
    FindFromFindsFirst(x + t, prefix, 0);
    if Find(x + t, prefix).Some? {
      MatchBehind(x, t, prefix, Find(x + t, prefix).value - |x|);
    }
  }

  lemma TokenBehind(prefix: seq<Byte>, joined: bool, x: seq<Byte>, t: seq<Byte>)
    requires prefix != [] && x != [] && forall q :: 0 <= q < |x| ==> !MatchesAt(x + t, prefix, q)
    ensures TokenAction(prefix, joined, x + t) == Shift(TokenAction(prefix, SecretByte(x[|x| - 1]), t), |x|)
  {
    FindBehind(x, t, prefix);
    if Find(t, prefix).Some? {
      var p := Find(t, prefix).value;
      SkipBehind(x, t, p + |prefix|, SecretByte);
      assert (x + t)[|x| + p - 1] == if p > 0 then t[p - 1] else x[|x| - 1];
    }
  }

  /** A masked string starts with its own first byte or with the marker. */
  lemma TokenFront(m: Masker, prefix: seq<Byte>, joined: bool, t: seq<Byte>)
    requires prefix != [] && m.marker != [] && MasksTokens(m, prefix) && t != []
    ensures var r := Rewrite(m, joined, t); r != [] && (r[0] == t[0] || r[0] == m.marker[0])
  {
    var a := Decision(m, joined, t);
    TokenFits(prefix, joined, t);
    if a.Leave? {
      assert t[..a.n][0] == t[0];
    }
  }

  lemma LeftTokenStaysLeft(prefix: seq<Byte>, joined: bool, s: seq<Byte>, marker: seq<Byte>, rest: seq<Byte>)
    requires ProperPrefix(prefix, marker) && TokenAction(prefix, joined, s).Leave?
    requires var n := TokenAction(prefix, joined, s).n;
             && n <= |s|
             && (if n == |s| then rest == [] else rest != [] && (rest[0] == s[n] || rest[0] == marker[0]))
    ensures var n := TokenAction(prefix, joined, s).n;
            TokenAction(prefix, joined, s[..n] + rest) == Leave(n)
  {
    var n := TokenAction(prefix, joined, s).n;
    var r := s[..n] + rest;
    ConcatKeeps(s[..n], rest, n);
    SameKey(prefix, s, r);
    SkipSkips(s, n, SecretByte);
    if Skip(s, n, SecretByte) == n {
      SkipIs(r, n, SecretByte, n);
    }
  }

  lemma TokenStableWhenLeft(m: Masker, prefix: seq<Byte>, joined: bool, s: seq<Byte>)
    requires ProperPrefix(prefix, m.marker) && MasksTokens(m, prefix)
    requires var a := TokenAction(prefix, joined, s); a.Leave? && Fits(a, s)
    ensures var n := TokenAction(prefix, joined, s).n;
            Decision(m, joined, s[..n] + Rewrite(m, m.inClass(s[n - 1]), s[n..])) == Leave(n)
  {
    var n := TokenAction(prefix, joined, s).n;
    var j := m.inClass(s[n - 1]);
    if n < |s| {
      TokenFront(m, prefix, j, s[n..]);
    } else {
      NothingToMask(m, prefix, j);
      assert s[n..] == [];
    }
    LeftTokenStaysLeft(prefix, joined, s, m.marker, Rewrite(m, j, s[n..]));
  }

  lemma NothingToMask(m: Masker, prefix: seq<Byte>, joined: bool)
    requires prefix != [] && m.marker != [] && MasksTokens(m, prefix)
    ensures Rewrite(m, joined, []) == []
  {
    var a := Decision(m, joined, []);
    TokenFits(prefix, joined, []);
  }

  /** Behind the marker the masker decides as it would on the rest alone. */
  lemma TokenDecidedBehindMarker(m: Masker, prefix: seq<Byte>, joined: bool, s: seq<Byte>, rest: seq<Byte>)
    requires ProperPrefix(prefix, m.marker) && MasksTokens(m, prefix)
    requires var a := TokenAction(prefix, joined, s); a.Redact? && Fits(a, s)
    ensures var x := s[..TokenAction(prefix, joined, s).from] + m.marker;
            && Fits(Decision(m, m.AfterMarker(), rest), rest)
            && Decision(m, joined, x + rest) == Shift(Decision(m, m.AfterMarker(), rest), |x|)
  {
    var x := s[..TokenAction(prefix, joined, s).from] + m.marker;
    forall q | 0 <= q < |x| ensures !MatchesAt(x + rest, prefix, q) {
      NothingBeforeMarkerEnds(prefix, m.marker, s, rest, q);
    }
    assert x[|x| - 1] == m.marker[|m.marker| - 1];
    TokenBehind(prefix, joined, x, rest);
    TokenFits(prefix, m.AfterMarker(), rest);
  }

  lemma TokenStableWhenRedacted(m: Masker, prefix: seq<Byte>, joined: bool, s: seq<Byte>)
    requires ProperPrefix(prefix, m.marker) && MasksTokens(m, prefix)
    requires var a := TokenAction(prefix, joined, s); a.Redact? && Fits(a, s)
    ensures var a := TokenAction(prefix, joined, s);
            var rest := Rewrite(m, m.AfterMarker(), s[a.to..]);
            Rewrite(m, joined, s[..a.from] + m.marker + rest) ==
            s[..a.from] + m.marker + Rewrite(m, m.AfterMarker(), rest)
  {
    var a := TokenAction(prefix, joined, s);
    var rest := Rewrite(m, m.AfterMarker(), s[a.to..]);
    TokenDecidedBehindMarker(m, prefix, joined, s, rest);
    RewriteBehind(m, joined, s[..a.from] + m.marker, m.AfterMarker(), rest);
  }

  lemma TokenMaskingIsStable(m: Masker, prefix: seq<Byte>, joined: bool, s: seq<Byte>)
    requires ProperPrefix(prefix, m.marker) && MasksTokens(m, prefix)
    ensures Stable(m, joined, s)
  {
    TokenFits(prefix, joined, s);
    if TokenAction(prefix, joined, s).Leave? {
      TokenStableWhenLeft(m, prefix, joined, s);
    } else if TokenAction(prefix, joined, s).Redact? {
      TokenStableWhenRedacted(m, prefix, joined, s);
    }
    assert Decision(m, joined, s) == TokenAction(prefix, joined, s);
  }

  /** Masking a token prefix a second time changes nothing. */
  lemma MaskPrefixedTokenTwice(text: seq<Byte>, prefix: seq<Byte>)
    requires ProperPrefix(prefix, REDACTED)
    ensures var m := TokenMasker(prefix, REDACTED);
            Rewrite(m, false, Rewrite(m, false, text)) == Rewrite(m, false, text)
  {
    var m := TokenMasker(prefix, REDACTED);
    forall j, t ensures Stable(m, j, t) {
      TokenMaskingIsStable(m, prefix, j, t);
    }
    RewriteTwice(m, false, text);
  }

  // ---------------------------------------------------------------- the whole masking

  lemma CutAroundToken(prefix: seq<Byte>, joined: bool, s: seq<Byte>)
    requires IsAscii(prefix) && prefix != [] && WellFormed(s) && TokenAction(prefix, joined, s).Redact?
    ensures var a := TokenAction(prefix, joined, s);
            a.from <= a.to <= |s| && WellFormed(s[..a.from]) && WellFormed(s[a.to..])
  {
    var a := TokenAction(prefix, joined, s);
    FindFromFindsFirst(s, prefix, 0);
    assert Lower(s[a.from + 0]) == prefix[0];
    LowerIsAscii(s[a.from]);
    SkipSkips(s, a.from + |prefix|, SecretByte);
    assert SecretByte(s[a.to - 1]);
    CutOutAscii(s, a.from, a.to);
  }

  lemma CutOutAscii(s: seq<Byte>, from: nat, to: nat)
    requires WellFormed(s) && from < to <= |s| && s[from] < 0x80 && s[to - 1] < 0x80
    ensures WellFormed(s[..from]) && WellFormed(s[to..])
  {
    CutBeforeAscii(s, from);
    CutBehindAscii(s, to - 1);
  }

  lemma CutBeforeAscii(s: seq<Byte>, i: nat)
    requires WellFormed(s) && i < |s| && s[i] < 0x80
    ensures WellFormed(s[..i])
  {
    CutAroundAscii(s, i);
  }

  lemma CutBehindAscii(s: seq<Byte>, i: nat)
    requires WellFormed(s) && i < |s| && s[i] < 0x80
    ensures WellFormed(s[i + 1..])
  {
    CutAroundAscii(s, i);
  }

  lemma TokenCutsWell(prefix: seq<Byte>, j: bool, t: seq<Byte>)
    requires IsAscii(prefix) && prefix != []
    ensures CutsWell(TokenMasker(prefix, REDACTED), j, t)
  {
    if WellFormed(t) && Find(t, prefix).Some? {
      CutAfterKey(prefix, t, Find(t, prefix).value);
      if TokenAction(prefix, j, t).Redact? {
        CutAroundToken(prefix, j, t);
      }
    }
  }

  lemma MaskPrefixedTokenKeepsUtf8(text: seq<Byte>, prefix: seq<Byte>)
    requires IsAscii(prefix) && prefix != [] && WellFormed(text)
    ensures WellFormed(Rewrite(TokenMasker(prefix, REDACTED), false, text))
  {
    var m := TokenMasker(prefix, REDACTED);
    forall j, t ensures CutsWell(m, j, t) {
      TokenCutsWell(prefix, j, t);
    }
    MarkerIsUtf8(REDACTED);
    RewriteKeepsUtf8(m, false, text);
  }

  predicate IsAscii(word: seq<Byte>) {
    forall i :: 0 <= i < |word| ==> word[i] < 0x80
  }

  function Ascii(text: string): (word: seq<Byte>)
    ensures |word| == |text| && IsAscii(word)
    ensures forall i :: 0 <= i < |text| && text[i] < 128 as char ==> word[i] == text[i] as int
  {
    seq(|text|, i requires 0 <= i < |text| => if text[i] < 128 as char then text[i] as int else 0)
  }

  const SENSITIVE_KEYS: seq<string> := [
    "authorization", "proxy-authorization", "cookie", "set-cookie", "api_key", "api-key", "apikey",
    "secret_key", "secret-key", "client_secret", "access_token", "refresh_token", "password"]

  const SECRET_PREFIXES: seq<string> := ["sk-", "pk-lf-", "sk-lf-"]

  /** The listed keys and prefixes meet the conditions under which masking twice changes nothing. */
  lemma ListedSecretsAreProper()
    ensures forall i :: 0 <= i < |SENSITIVE_KEYS| ==> ProperKey(Ascii(SENSITIVE_KEYS[i]))
    ensures forall i :: 0 <= i < |SECRET_PREFIXES| ==> ProperPrefix(Ascii(SECRET_PREFIXES[i]), REDACTED)
  {
    forall i | 0 <= i < |SENSITIVE_KEYS| ensures ProperKey(Ascii(SENSITIVE_KEYS[i])) {
      ProperKeyText(SENSITIVE_KEYS[i]);
    }
    forall i | 0 <= i < |SECRET_PREFIXES| ensures ProperPrefix(Ascii(SECRET_PREFIXES[i]), REDACTED) {
      ProperPrefixText(SECRET_PREFIXES[i]);
    }
  }

  lemma ProperKeyText(key: string)
    requires key != "" && key[0] in ['a', 'p', 'c', 's', 'r']
    ensures ProperKey(Ascii(key))
  {
    assert Ascii(key)[0] == key[0] as int;
  }

  lemma ProperPrefixText(prefix: string)
    requires prefix != "" && prefix[0] in ['s', 'p']
    requires forall k :: 0 <= k < |prefix| ==> prefix[k] in ['s', 'p', 'k', '-', 'l', 'f']
    ensures ProperPrefix(Ascii(prefix), REDACTED)
  {
    assert forall k :: 0 <= k < |prefix| ==> Ascii(prefix)[k] == prefix[k] as int;
  }
}
