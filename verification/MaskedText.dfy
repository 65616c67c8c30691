/** What masking achieves: no value assigned to a key, and no token with a prefix, is left in the text. */
module MaskedText {
  import opened Widths
  import opened Wrappers
  import opened Redactor
  import opened TraceMasker
  import opened SecretTokens

  lemma LowerKeepsClasses(b: Byte)
    ensures Identifier(Lower(b)) <==> Identifier(b)
    ensures SecretByte(Lower(b)) <==> SecretByte(b)
  {
  }

  lemma MatchShifts(s: seq<Byte>, key: seq<Byte>, n: nat, p: nat)
    requires n <= p && n <= |s|
    ensures MatchesAt(s[n..], key, p - n) <==> MatchesAt(s, key, p)
  {
    assert s[..n] + s[n..] == s;
    MatchBehind(s[..n], s[n..], key, p - n);
  }

  // ---------------------------------------------------------------- assignments

  /** Every range the masker would replace already is the marker. */
  ghost predicate Masked(m: Masker, joined: bool, s: seq<Byte>)
    requires m.marker != []
    decreases |s|
  {
    var a := m.rule(joined, s);
    if a.Stop? || !Fits(a, s) then true
    else if a.Leave? then Masked(m, m.inClass(s[a.n - 1]), s[a.n..])
    else s[a.from..a.to] == m.marker && Masked(m, m.AfterMarker(), s[a.to..])
  }

  lemma MaskedBehindLeft(m: Masker, joined: bool, head: seq<Byte>, rest: seq<Byte>)
    requires m.marker != [] && head != [] && m.rule(joined, head + rest) == Leave(|head|)
    requires Masked(m, m.inClass(head[|head| - 1]), rest)
    ensures Masked(m, joined, head + rest)
  {
    assert (head + rest)[|head|..] == rest;
  }

  lemma MaskedBehindMarker(m: Masker, joined: bool, head: seq<Byte>, rest: seq<Byte>)
    requires m.marker != [] && Masked(m, m.AfterMarker(), rest)
    requires m.rule(joined, head + m.marker + rest) == Redact(|head|, |head| + |m.marker|)
    ensures Masked(m, joined, head + m.marker + rest)
  {
    var r, k := head + m.marker + rest, |head| + |m.marker|;
    assert r[|head|..k] == m.marker && r[k..] == rest;
  }

  /** After the rest is rewritten, the masker decides alike, a replaced range now being the marker. */
  ghost predicate Settles(m: Masker, joined: bool, s: seq<Byte>)
    requires m.marker != []
  {
    var a := m.rule(joined, s);
    && Fits(a, s)
    && (a.Leave? ==> m.rule(joined, s[..a.n] + Rewrite(m, m.inClass(s[a.n - 1]), s[a.n..])) == a)
    && (a.Redact? ==>
          m.rule(joined, s[..a.from] + m.marker + Rewrite(m, m.AfterMarker(), s[a.to..])) ==
          Redact(a.from, a.from + |m.marker|))
  }

  lemma {:induction false} SettledIsMasked(m: Masker, joined: bool, s: seq<Byte>)
    requires m.marker != [] && forall j, t :: Settles(m, j, t)
    ensures Masked(m, joined, Rewrite(m, joined, s))
    decreases |s|
  {
    assert Settles(m, joined, s);
    var a := m.rule(joined, s);
    if a.Leave? {
      var j := m.inClass(s[a.n - 1]);
      SettledIsMasked(m, j, s[a.n..]);
      MaskedBehindLeft(m, joined, s[..a.n], Rewrite(m, j, s[a.n..]));
    } else if a.Redact? {
      SettledIsMasked(m, m.AfterMarker(), s[a.to..]);
      MaskedBehindMarker(m, joined, s[..a.from], Rewrite(m, m.AfterMarker(), s[a.to..]));
    }
  }

  lemma AssignmentsSettle(m: Masker, key: seq<Byte>, joined: bool, s: seq<Byte>)
    requires ProperKey(key) && ProperMarker(m.marker) && MasksAssignments(m, key)
    ensures Settles(m, joined, s)
  {
    AssignmentFits(key, joined, s);
    if AssignmentAction(key, joined, s).Leave? {
      StableWhenLeft(m, key, joined, s);
    } else if AssignmentAction(key, joined, s).Redact? {
      RedactedDecision(m, key, joined, s);
    }
    assert Decision(m, joined, s) == AssignmentAction(key, joined, s);
  }

  lemma RewriteIsMasked(m: Masker, key: seq<Byte>, s: seq<Byte>)
    requires ProperKey(key) && ProperMarker(m.marker) && MasksAssignments(m, key)
    ensures Masked(m, false, Rewrite(m, false, s))
  {
    forall j, t ensures Settles(m, j, t) {
      AssignmentsSettle(m, key, j, t);
    }
    SettledIsMasked(m, false, s);
  }

  /** Keys are made of letters, digits, `_` and `-`. */
  predicate IdentifierKey(key: seq<Byte>) {
    key != [] && forall i :: 0 <= i < |key| ==> Identifier(key[i])
  }

  /** A word in brackets: only its first and last bytes are no identifier bytes. */
  ghost predicate BracketedMarker(marker: seq<Byte>) {
    && ProperMarker(marker) && |marker| >= 2
    && !Identifier(marker[0]) && !Identifier(marker[|marker| - 1])
    && forall i :: 0 < i < |marker| - 1 ==> Identifier(marker[i])
  }

  /** At `p` the key stands by itself and is assigned a value. */
  predicate Assigned(key: seq<Byte>, joined: bool, s: seq<Byte>, p: nat) {
    MatchesAt(s, key, p) && !JoinedLeft(joined, s, p) && ValueRange(s, p + |key|).Some?
  }

  /** A key that stands by itself does not begin inside another occurrence. */
  lemma NotInsideKey(key: seq<Byte>, joined: bool, s: seq<Byte>, q: nat, p: nat)
    requires IdentifierKey(key) && MatchesAt(s, key, q) && q < p <= |s| && !JoinedLeft(joined, s, p)
    ensures q + |key| <= p
  {
    if p < q + |key| {
      assert Lower(s[q + (p - 1 - q)]) == key[p - 1 - q];
      LowerKeepsClasses(s[p - 1]);
    }
  }

  /** Between a key and its value there are only blanks, quotes and the sign of assignment. */
  lemma NoIdentifierBeforeValue(s: seq<Byte>, a: nat, i: nat)
    requires a <= |s| && ValueRange(s, a).Some? && a <= i < ValueRange(s, a).value.0
    ensures !Identifier(s[i])
  {
    SkipSkips(s, a, SpaceOrQuote);
    var c := Skip(s, a, SpaceOrQuote);
    SkipSkips(s, c + 1, Space);
    if i < c {
      assert SpaceOrQuote(s[i]);
    } else if c < i < Skip(s, c + 1, Space) {
      assert Space(s[i]);
    }
  }

  lemma NotInsideMarker(key: seq<Byte>, joined: bool, s: seq<Byte>, vs: nat, marker: seq<Byte>, p: nat)
    requires IdentifierKey(key) && BracketedMarker(marker) && vs + |marker| <= |s| && s[vs..vs + |marker|] == marker
    requires vs <= p && Assigned(key, joined, s, p)
    ensures vs + |marker| <= p
  {
    var end := vs + |marker|;
    forall i | vs <= i < end ensures s[i] == marker[i - vs] {
      assert s[vs..end][i - vs] == s[i];
    }
    if p < end {
      assert Lower(s[p + 0]) == key[0];
      LowerKeepsClasses(s[p]);
      assert vs < p < end - 1;
      assert p == vs + 1;
      if p + |key| >= end {
        assert Lower(s[p + (end - 1 - p)]) == key[end - 1 - p];
        LowerKeepsClasses(s[end - 1]);
      }
    }
  }

  lemma AssignedShifts(key: seq<Byte>, joined: bool, s: seq<Byte>, n: nat, p: nat)
    requires key != [] && 0 < n <= p && n <= |s| && Assigned(key, joined, s, p)
    ensures Assigned(key, Identifier(s[n - 1]), s[n..], p - n)
  {
    MatchShifts(s, key, n, p);
    RangeShifts(s, n, p + |key|);
  }

  /** The value of a key that ends at `a`, if there is one, is the marker. */
  predicate ValueIs(s: seq<Byte>, a: nat, marker: seq<Byte>)
    requires a <= |s|
  {
    ValueRange(s, a).Some? ==> var (vs, ve) := ValueRange(s, a).value; s[vs..ve] == marker
  }

  lemma ValueIsShifts(s: seq<Byte>, n: nat, a: nat, marker: seq<Byte>)
    requires n <= a <= |s| && ValueIs(s[n..], a - n, marker)
    ensures ValueIs(s, a, marker)
  {
    RangeShifts(s, n, a);
    if ValueRange(s, a).Some? {
      var (vs, ve) := ValueRange(s, a).value;
      assert s[n..][vs - n..ve - n] == s[vs..ve];
    }
  }

  /** One round further the masker still finds nothing but markers. */
  lemma MaskedNext(m: Masker, joined: bool, s: seq<Byte>)
    requires m.marker != [] && Masked(m, joined, s) && Fits(m.rule(joined, s), s)
    ensures var a := m.rule(joined, s);
            && (a.Leave? ==> Masked(m, m.inClass(s[a.n - 1]), s[a.n..]))
            && (a.Redact? ==> s[a.from..a.to] == m.marker && Masked(m, m.inClass(s[a.to - 1]), s[a.to..]))
  {
    var a := m.rule(joined, s);
    if a.Redact? {
      assert s[a.from..a.to][|m.marker| - 1] == s[a.to - 1];
    }
  }

  /** At `p` either there is nothing to mask or the marker stands there already. */
  ghost predicate Safe(key: seq<Byte>, joined: bool, s: seq<Byte>, p: nat, marker: seq<Byte>) {
    Assigned(key, joined, s, p) ==> ValueIs(s, p + |key|, marker)
  }

  lemma SafeShifts(key: seq<Byte>, joined: bool, s: seq<Byte>, n: nat, p: nat, marker: seq<Byte>)
    requires key != [] && 0 < n <= p && n <= |s| && Safe(key, Identifier(s[n - 1]), s[n..], p - n, marker)
    ensures Safe(key, joined, s, p, marker)
  {
    if Assigned(key, joined, s, p) {
      AssignedShifts(key, joined, s, n, p);
      ValueIsShifts(s, n, p + |key|, marker);
    }
  }

  /** Where the round that decides the first key ends, and what is safe before that. */
  lemma SafeBefore(key: seq<Byte>, joined: bool, s: seq<Byte>, q: nat, p: nat, marker: seq<Byte>, a: Action)
    requires IdentifierKey(key) && BracketedMarker(marker) && Find(s, key) == Some(q)
    requires a == AssignmentAction(key, joined, s) && (a.Redact? ==> a.from <= a.to <= |s| && s[a.from..a.to] == marker)
    ensures Safe(key, joined, s, p, marker) || (q < p && (a.Leave? ==> a.n <= p) && (a.Redact? ==> a.to <= p))
  {
    ActionAt(key, joined, s, q);
    FindFromFindsFirst(s, key, 0);
    if Assigned(key, joined, s, p) && q < p {
      NotInsideKey(key, joined, s, q, p);
      if a.Redact? {
        NotInsideValue(marker, key, joined, s, q, p);
      }
    }
  }

  lemma SafeRound(key: seq<Byte>, joined: bool, s: seq<Byte>, p: nat, marker: seq<Byte>, a: Action, n: nat)
    requires IdentifierKey(key) && BracketedMarker(marker) && a == AssignmentAction(key, joined, s)
    requires 0 < n <= |s| && (a == Leave(n) || (a.Redact? && a.from <= a.to == n && s[a.from..n] == marker))
    requires p < n || Safe(key, Identifier(s[n - 1]), s[n..], p - n, marker)
    ensures Safe(key, joined, s, p, marker)
  {
    SafeBefore(key, joined, s, Find(s, key).value, p, marker, a);
    if n <= p {
      SafeShifts(key, joined, s, n, p, marker);
    }
  }

  /** One round of a masked string: what is decided, and where the next round begins. */
  lemma OneRound(m: Masker, key: seq<Byte>, joined: bool, s: seq<Byte>) returns (a: Action, n: nat)
    requires IdentifierKey(key) && m.marker != [] && MasksAssignments(m, key) && Masked(m, joined, s)
    ensures a == AssignmentAction(key, joined, s) && (a.Stop? ==> Find(s, key).None?)
    ensures !a.Stop? ==> 0 < n <= |s| && Masked(m, Identifier(s[n - 1]), s[n..])
    ensures a.Leave? ==> a == Leave(n)
    ensures a.Redact? ==> a.from <= a.to == n && s[a.from..n] == m.marker
  {
    a := Decision(m, joined, s);
    AssignmentFits(key, joined, s);
    MaskedNext(m, joined, s);
    n := match a case Stop => 0 case Leave(k) => k case Redact(_, to) => to;
  }

  /** Where the masker has been through, wherever the key is assigned a value, that value is the marker. */
  lemma {:induction false} MaskedEverywhere(m: Masker, key: seq<Byte>, joined: bool, s: seq<Byte>, p: nat)
    requires IdentifierKey(key) && BracketedMarker(m.marker) && MasksAssignments(m, key) && Masked(m, joined, s)
    ensures Safe(key, joined, s, p, m.marker)
    decreases |s|
  {
    var a, n := OneRound(m, key, joined, s);
    if a.Stop? {
      NotFound(s, key, p);
    } else {
      if n <= p {
        MaskedEverywhere(m, key, Identifier(s[n - 1]), s[n..], p - n);
      }
      SafeRound(key, joined, s, p, m.marker, a, n);
    }
  }

  lemma NotFound(s: seq<Byte>, key: seq<Byte>, p: nat)
    requires Find(s, key).None?
    ensures !MatchesAt(s, key, p)
  {
    FindFromFindsFirst(s, key, 0);
  }

  lemma NotInsideValue(marker: seq<Byte>, key: seq<Byte>, joined: bool, s: seq<Byte>, q: nat, p: nat)
    requires IdentifierKey(key) && BracketedMarker(marker) && q + |key| <= p && q + |key| <= |s|
    requires ValueRange(s, q + |key|).Some? && Assigned(key, joined, s, p)
    requires var (vs, ve) := ValueRange(s, q + |key|).value; s[vs..ve] == marker
    ensures ValueRange(s, q + |key|).value.1 <= p
  {
    var (vs, ve) := ValueRange(s, q + |key|).value;
    if p < vs {
      assert Lower(s[p + 0]) == key[0];
      LowerKeepsClasses(s[p]);
      NoIdentifierBeforeValue(s, q + |key|, p);
    } else {
      NotInsideMarker(key, joined, s, vs, marker, p);
    }
  }

  /** After masking a key, every value assigned to it anywhere in the text is the marker. */
  lemma NoAssignedValueSurvives(text: seq<Byte>, key: seq<Byte>, p: nat)
    requires IdentifierKey(key)
    ensures var r := Rewrite(AssignmentMasker(key, REDACTED), false, text);
            Assigned(key, false, r, p) ==> ValueIs(r, p + |key|, REDACTED)
  {
    var m := AssignmentMasker(key, REDACTED);
    RewriteIsMasked(m, key, text);
    MaskedEverywhere(m, key, false, Rewrite(m, false, text), p);
  }

  // ---------------------------------------------------------------- tokens

  /** The masker finds nothing to replace. */
  ghost predicate Clean(m: Masker, joined: bool, s: seq<Byte>)
    requires m.marker != []
    decreases |s|
  {
    var a := m.rule(joined, s);
    if a.Stop? || !Fits(a, s) then true
    else a.Leave? && Clean(m, m.inClass(s[a.n - 1]), s[a.n..])
  }

  lemma CleanBehindLeft(m: Masker, joined: bool, head: seq<Byte>, rest: seq<Byte>)
    requires m.marker != [] && head != [] && m.rule(joined, head + rest) == Leave(|head|)
    requires Clean(m, m.inClass(head[|head| - 1]), rest)
    ensures Clean(m, joined, head + rest)
  {
    assert (head + rest)[|head|..] == rest;
  }

  lemma CleanBehind(m: Masker, joined: bool, x: seq<Byte>, j: bool, t: seq<Byte>)
    requires m.marker != [] && Fits(m.rule(j, t), t) && m.rule(joined, x + t) == Shift(m.rule(j, t), |x|)
    requires Clean(m, j, t)
    ensures Clean(m, joined, x + t)
  {
    var a := m.rule(j, t);
    if a.Leave? {
      assert (x + t)[|x| + a.n..] == t[a.n..] && (x + t)[|x| + a.n - 1] == t[a.n - 1];
    }
  }

  lemma {:induction false} RewriteIsClean(m: Masker, prefix: seq<Byte>, joined: bool, s: seq<Byte>)
    requires ProperPrefix(prefix, m.marker) && MasksTokens(m, prefix)
    ensures Clean(m, joined, Rewrite(m, joined, s))
    decreases |s|
  {
    TokenFits(prefix, joined, s);
    var a := Decision(m, joined, s);
    if a.Leave? {
      var j := m.inClass(s[a.n - 1]);
      RewriteIsClean(m, prefix, j, s[a.n..]);
      TokenStableWhenLeft(m, prefix, joined, s);
      CleanBehindLeft(m, joined, s[..a.n], Rewrite(m, j, s[a.n..]));
    } else if a.Redact? {
      var rest := Rewrite(m, m.AfterMarker(), s[a.to..]);
      RewriteIsClean(m, prefix, m.AfterMarker(), s[a.to..]);
      TokenDecidedBehindMarker(m, prefix, joined, s, rest);
      CleanBehind(m, joined, s[..a.from] + m.marker, m.AfterMarker(), rest);
    }
  }

  predicate SecretPrefix(prefix: seq<Byte>) {
    prefix != [] && forall i :: 0 <= i < |prefix| ==> SecretByte(prefix[i])
  }

  lemma NotInsidePrefix(prefix: seq<Byte>, joined: bool, s: seq<Byte>, q: nat, p: nat)
    requires SecretPrefix(prefix) && MatchesAt(s, prefix, q) && q < p <= |s| && !InToken(joined, s, p)
    ensures q + |prefix| <= p
  {
    if p < q + |prefix| {
      assert Lower(s[q + (p - 1 - q)]) == prefix[p - 1 - q];
      LowerKeepsClasses(s[p - 1]);
    }
  }

  /** Where a token begins at `p`, it has nothing but its prefix. */
  ghost predicate Bare(prefix: seq<Byte>, joined: bool, s: seq<Byte>, p: nat) {
    MatchesAt(s, prefix, p) && !InToken(joined, s, p) ==> Skip(s, p + |prefix|, SecretByte) == p + |prefix|
  }

  lemma BareShifts(prefix: seq<Byte>, joined: bool, s: seq<Byte>, n: nat, p: nat)
    requires 0 < n <= p && n <= |s| && Bare(prefix, SecretByte(s[n - 1]), s[n..], p - n)
    ensures Bare(prefix, joined, s, p)
  {
    MatchShifts(s, prefix, n, p);
    if MatchesAt(s, prefix, p) {
      SkipShifts(s, n, p + |prefix|, SecretByte);
    }
  }

  lemma BareBefore(prefix: seq<Byte>, joined: bool, s: seq<Byte>, p: nat)
    requires SecretPrefix(prefix) && !TokenAction(prefix, joined, s).Redact?
    ensures TokenAction(prefix, joined, s).Stop? || p < TokenAction(prefix, joined, s).n ==> Bare(prefix, joined, s, p)
  {
    FindFromFindsFirst(s, prefix, 0);
    if MatchesAt(s, prefix, p) && !InToken(joined, s, p) && Find(s, prefix).value < p {
      NotInsidePrefix(prefix, joined, s, Find(s, prefix).value, p);
    }
  }

  lemma {:induction false} CleanEverywhere(m: Masker, prefix: seq<Byte>, joined: bool, s: seq<Byte>, p: nat)
    requires SecretPrefix(prefix) && m.marker != [] && MasksTokens(m, prefix) && Clean(m, joined, s)
    ensures Bare(prefix, joined, s, p)
    decreases |s|
  {
    TokenFits(prefix, joined, s);
    var a := Decision(m, joined, s);
    BareBefore(prefix, joined, s, p);
    if a.Leave? && a.n <= p {
      CleanEverywhere(m, prefix, SecretByte(s[a.n - 1]), s[a.n..], p - a.n);
      BareShifts(prefix, joined, s, a.n, p);
    }
  }

  /** After masking a prefix, wherever it still begins a token, no secret byte follows it. */
  lemma NoTokenSurvives(text: seq<Byte>, prefix: seq<Byte>, p: nat)
    requires SecretPrefix(prefix) && ProperPrefix(prefix, REDACTED)
    requires var r := Rewrite(TokenMasker(prefix, REDACTED), false, text);
             MatchesAt(r, prefix, p) && !InToken(false, r, p)
    ensures var r := Rewrite(TokenMasker(prefix, REDACTED), false, text);
            p + |prefix| == |r| || !SecretByte(r[p + |prefix|])
  {
    var m := TokenMasker(prefix, REDACTED);
    var r := Rewrite(m, false, text);
    RewriteIsClean(m, prefix, false, text);
    CleanEverywhere(m, prefix, false, r, p);
    SkipSkips(r, p + |prefix|, SecretByte);
  }

  // ---------------------------------------------------------------- the listed keys and prefixes

  predicate KeyChar(c: char) {
    'a' <= c <= 'z' || c == '_' || c == '-'
  }

  predicate KeyText(text: string) {
    text != "" && forall k :: 0 <= k < |text| ==> KeyChar(text[k])
  }

  lemma KeyTextIsKey(text: string)
    requires KeyText(text)
    ensures IdentifierKey(Ascii(text)) && SecretPrefix(Ascii(text))
  {
    forall k | 0 <= k < |text| ensures Identifier(Ascii(text)[k]) {
      assert KeyChar(text[k]) && Ascii(text)[k] == text[k] as int;
    }
  }

  lemma KeysAreTexts()
    ensures forall i :: 0 <= i < |SENSITIVE_KEYS| ==> KeyText(SENSITIVE_KEYS[i])
  {
  }

  lemma PrefixesAreTexts()
    ensures forall i :: 0 <= i < |SECRET_PREFIXES| ==> KeyText(SECRET_PREFIXES[i])
  {
  }

  /** Both theorems apply to every listed key and prefix. */
  lemma ListedSecretsAreCovered()
    ensures forall i :: 0 <= i < |SENSITIVE_KEYS| ==> IdentifierKey(Ascii(SENSITIVE_KEYS[i]))
    ensures forall i :: 0 <= i < |SECRET_PREFIXES| ==>
      (SecretPrefix(Ascii(SECRET_PREFIXES[i])) && ProperPrefix(Ascii(SECRET_PREFIXES[i]), REDACTED))
  {
    ListedSecretsAreProper();
    KeysAreTexts();
    PrefixesAreTexts();
    forall i | 0 <= i < |SENSITIVE_KEYS| ensures IdentifierKey(Ascii(SENSITIVE_KEYS[i])) {
      KeyTextIsKey(SENSITIVE_KEYS[i]);
    }
    forall i | 0 <= i < |SECRET_PREFIXES| ensures SecretPrefix(Ascii(SECRET_PREFIXES[i])) {
      KeyTextIsKey(SECRET_PREFIXES[i]);
    }
  }
}
