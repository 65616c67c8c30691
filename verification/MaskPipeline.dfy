/** The whole masking of one trace text: every listed key, then every listed prefix, then the cut to size. */
module MaskPipeline {
  import opened Widths
  import opened Wrappers
  import opened Utf8
  import opened Redactor
  import opened TraceMasker
  import opened SecretTokens
  import opened MaskedText
  import opened MaskEdits
  import opened MaskSplits

  const DETECTOR_OVERLAP_BYTES: nat := 256

  // ---------------------------------------------------------------- what every edit of a masking keeps

  /** Whatever the masker replaces at `i` keeps the property. */
  ghost predicate EditKeeps(m: Masker, holds: seq<Byte> -> bool, v: seq<Byte>, i: nat)
    requires i <= |v|
  {
    var a := m.rule(JoinedAt(m, v, i), v[i..]);
    && Fits(a, v[i..])
    && (a.Redact? && holds(v) ==> holds(Edit(v, i + a.from, i + a.to, m.marker)))
  }

  lemma EditStep(m: Masker, v: seq<Byte>, i: nat, from: nat, to: nat)
    requires m.marker != [] && i <= |v| && from <= to <= |v| - i && 0 < to
    requires m.rule(JoinedAt(m, v, i), v[i..]) == Redact(from, to)
    ensures var w := Edit(v, i + from, i + to, m.marker);
            && |w| - (i + from + |m.marker|) == |v| - i - to
            && Settled(m, w, i + from + |m.marker|) == Settled(m, v, i)
  {
    RedactStep(m, v, i, i + from, i + to);
  }

  lemma {:induction false} EditsKeep(m: Masker, holds: seq<Byte> -> bool, v: seq<Byte>, i: nat)
    requires m.marker != [] && i <= |v| && holds(v)
    requires forall w, k: nat :: k <= |w| ==> EditKeeps(m, holds, w, k)
    ensures holds(Settled(m, v, i))
    decreases |v| - i
  {
    assert EditKeeps(m, holds, v, i);
    var a := m.rule(JoinedAt(m, v, i), v[i..]);
    match a
    case Stop => StopStep(m, v, i);
    case Leave(n) =>
      LeaveStep(m, v, i, n);
      EditsKeep(m, holds, v, i + n);
    case Redact(from, to) =>
      EditStep(m, v, i, from, to);
      EditsKeep(m, holds, Edit(v, i + from, i + to, m.marker), i + from + |m.marker|);
  }

  lemma RewriteKeeps(m: Masker, holds: seq<Byte> -> bool, text: seq<Byte>)
    requires m.marker != [] && holds(text)
    requires forall w, k: nat :: k <= |w| ==> EditKeeps(m, holds, w, k)
    ensures holds(Rewrite(m, false, text))
  {
    SettledFromStart(m, text);
    EditsKeep(m, holds, text, 0);
  }

  // ---------------------------------------------------------------- masking a key keeps other keys masked

  ghost function Masks(key: seq<Byte>): seq<Byte> -> bool {
    s => MaskedFor(key, REDACTED, s)
  }

  ghost function Bares(prefix: seq<Byte>): seq<Byte> -> bool {
    s => BareFor(prefix, s)
  }

  /** The range a key's masking replaces is the value of an occurrence that ends with an identifier byte. */
  lemma RedactedIsValue(key: seq<Byte>, v: seq<Byte>, i: nat, joined: bool)
    requires IdentifierKey(key) && i <= |v| && AssignmentAction(key, joined, v[i..]).Redact?
    ensures var a, b := AssignmentAction(key, joined, v[i..]), i + Find(v[i..], key).value + |key|;
            && Find(v[i..], key).Some? && 0 < b <= |v| && Identifier(v[b - 1])
            && ValueRange(v, b) == Some((i + a.from, i + a.to))
  {
    var q := Find(v[i..], key).value;
    FindFromFindsFirst(v[i..], key, 0);
    KeyEndIsIdentifier(key, v[i..], q);
    RangeShifts(v, i, i + q + |key|);
  }

  lemma ValueEditKeepsKey(other: seq<Byte>, v: seq<Byte>, b: nat, from: nat, to: nat)
    requires IdentifierKey(other) && MaskedFor(other, REDACTED, v)
    requires 0 < b <= |v| && Identifier(v[b - 1]) && ValueRange(v, b) == Some((from, to))
    ensures MaskedFor(other, REDACTED, Edit(v, from, to, REDACTED))
  {
    ValueIsSafeEdit(other, REDACTED, v, b);
    EditKeepsMasked(other, REDACTED, v, from, to);
  }

  /** What one round of a masking does to the whole string, if its decision for the rest is `a`. */
  ghost predicate RoundKeeps(v: seq<Byte>, i: nat, a: Action, holds: seq<Byte> -> bool)
    requires i <= |v|
  {
    Fits(a, v[i..]) && (a.Redact? && holds(v) ==> holds(Edit(v, i + a.from, i + a.to, REDACTED)))
  }

  lemma KeyRoundKeepsKey(other: seq<Byte>, key: seq<Byte>, v: seq<Byte>, i: nat, joined: bool)
    requires IdentifierKey(other) && IdentifierKey(key) && i <= |v|
    ensures RoundKeeps(v, i, AssignmentAction(key, joined, v[i..]), Masks(other))
  {
    AssignmentFits(key, joined, v[i..]);
    var a := AssignmentAction(key, joined, v[i..]);
    if a.Redact? && MaskedFor(other, REDACTED, v) {
      RedactedIsValue(key, v, i, joined);
      ValueEditKeepsKey(other, v, i + Find(v[i..], key).value + |key|, i + a.from, i + a.to);
    }
  }

  lemma KeyEditKeepsKey(other: seq<Byte>, key: seq<Byte>, v: seq<Byte>, i: nat)
    requires IdentifierKey(other) && IdentifierKey(key) && i <= |v|
    ensures EditKeeps(AssignmentMasker(key, REDACTED), Masks(other), v, i)
  {
    var m := AssignmentMasker(key, REDACTED);
    KeyRoundKeepsKey(other, key, v, i, JoinedAt(m, v, i));
    EditOfRound(m, v, i, Masks(other));
  }

  lemma EditOfRound(m: Masker, v: seq<Byte>, i: nat, holds: seq<Byte> -> bool)
    requires m.marker == REDACTED && i <= |v| && RoundKeeps(v, i, m.rule(JoinedAt(m, v, i), v[i..]), holds)
    ensures EditKeeps(m, holds, v, i)
  {
  }

  lemma KeyMaskKeepsKey(other: seq<Byte>, key: seq<Byte>, text: seq<Byte>)
    requires IdentifierKey(other) && IdentifierKey(key) && MaskedFor(other, REDACTED, text)
    ensures MaskedFor(other, REDACTED, Rewrite(AssignmentMasker(key, REDACTED), false, text))
  {
    var m := AssignmentMasker(key, REDACTED);
    var holds := Masks(other);
    forall w, k: nat | k <= |w| ensures EditKeeps(m, holds, w, k) {
      KeyEditKeepsKey(other, key, w, k);
    }
    RewriteKeeps(m, holds, text);
  }

  lemma KeyMaskMasksKey(key: seq<Byte>, text: seq<Byte>)
    requires IdentifierKey(key)
    ensures MaskedFor(key, REDACTED, Rewrite(AssignmentMasker(key, REDACTED), false, text))
  {
    forall p: nat ensures Safe(key, false, Rewrite(AssignmentMasker(key, REDACTED), false, text), p, REDACTED) {
      NoAssignedValueSurvives(text, key, p);
    }
  }

  // ---------------------------------------------------------------- masking a prefix keeps keys and prefixes masked

  /** The conditions the listed prefixes meet. */
  ghost predicate TokenPrefix(prefix: seq<Byte>) {
    SecretPrefix(prefix) && Identifier(prefix[0]) && ProperPrefix(prefix, REDACTED)
  }

  lemma RedactedIsToken(prefix: seq<Byte>, v: seq<Byte>, i: nat, joined: bool)
    requires SecretPrefix(prefix) && Identifier(prefix[0]) && i <= |v| && TokenAction(prefix, joined, v[i..]).Redact?
    requires joined == (i > 0 && SecretByte(v[i - 1]))
    ensures var a := TokenAction(prefix, joined, v[i..]);
            && WholeToken(v, i + a.from, i + a.to)
            && Identifier(v[i + a.from]) && Lower(v[i + a.from]) == prefix[0]
  {
    var t := v[i..];
    var q := Find(t, prefix).value;
    FindFromFindsFirst(t, prefix, 0);
    SkipSkips(t, q + |prefix|, SecretByte);
    assert Lower(t[q + 0]) == prefix[0];
    LowerKeepsClasses(t[q]);
  }

  lemma PrefixRoundKeepsKey(key: seq<Byte>, prefix: seq<Byte>, v: seq<Byte>, i: nat, joined: bool)
    requires IdentifierKey(key) && TokenPrefix(prefix) && i <= |v| && joined == (i > 0 && SecretByte(v[i - 1]))
    ensures RoundKeeps(v, i, TokenAction(prefix, joined, v[i..]), Masks(key))
  {
    TokenFits(prefix, joined, v[i..]);
    var a := TokenAction(prefix, joined, v[i..]);
    if a.Redact? && MaskedFor(key, REDACTED, v) {
      RedactedIsToken(prefix, v, i, joined);
      TokenEditKeepsKey(key, prefix, v, i + a.from, i + a.to);
    }
  }

  lemma TokenEditKeepsKey(key: seq<Byte>, prefix: seq<Byte>, v: seq<Byte>, from: nat, to: nat)
    requires IdentifierKey(key) && ProperPrefix(prefix, REDACTED) && MaskedFor(key, REDACTED, v)
    requires WholeToken(v, from, to) && Identifier(v[from]) && Lower(v[from]) == prefix[0]
    ensures MaskedFor(key, REDACTED, Edit(v, from, to, REDACTED))
  {
    NotInMarker(prefix, v[from]);
    TokenIsSafeEdit(key, REDACTED, v, from, to);
    EditKeepsMasked(key, REDACTED, v, from, to);
  }

  lemma NotInMarker(prefix: seq<Byte>, b: Byte)
    requires ProperPrefix(prefix, REDACTED) && Lower(b) == prefix[0]
    ensures forall i :: 0 <= i < |REDACTED| ==> REDACTED[i] != b
  {
  }

  lemma PrefixEditKeepsKey(key: seq<Byte>, prefix: seq<Byte>, v: seq<Byte>, i: nat)
    requires IdentifierKey(key) && TokenPrefix(prefix) && i <= |v|
    ensures EditKeeps(TokenMasker(prefix, REDACTED), Masks(key), v, i)
  {
    var m := TokenMasker(prefix, REDACTED);
    PrefixRoundKeepsKey(key, prefix, v, i, JoinedAt(m, v, i));
    EditOfRound(m, v, i, Masks(key));
  }

  lemma PrefixEditKeepsPrefix(other: seq<Byte>, prefix: seq<Byte>, v: seq<Byte>, i: nat)
    requires TokenPrefix(other) && TokenPrefix(prefix) && i <= |v|
    ensures EditKeeps(TokenMasker(prefix, REDACTED), Bares(other), v, i)
  {
    var m := TokenMasker(prefix, REDACTED);
    var joined := JoinedAt(m, v, i);
    TokenFits(prefix, joined, v[i..]);
    var a := TokenAction(prefix, joined, v[i..]);
    if a.Redact? && BareFor(other, v) {
      RedactedIsToken(prefix, v, i, joined);
      EditKeepsBare(other, REDACTED, v, i + a.from, i + a.to);
    }
  }

  lemma PrefixMaskKeepsKey(key: seq<Byte>, prefix: seq<Byte>, text: seq<Byte>)
    requires IdentifierKey(key) && TokenPrefix(prefix) && MaskedFor(key, REDACTED, text)
    ensures MaskedFor(key, REDACTED, Rewrite(TokenMasker(prefix, REDACTED), false, text))
  {
    var m := TokenMasker(prefix, REDACTED);
    var holds := Masks(key);
    forall w, k: nat | k <= |w| ensures EditKeeps(m, holds, w, k) {
      PrefixEditKeepsKey(key, prefix, w, k);
    }
    RewriteKeeps(m, holds, text);
  }

  lemma PrefixMaskKeepsPrefix(other: seq<Byte>, prefix: seq<Byte>, text: seq<Byte>)
    requires TokenPrefix(other) && TokenPrefix(prefix) && BareFor(other, text)
    ensures BareFor(other, Rewrite(TokenMasker(prefix, REDACTED), false, text))
  {
    var m := TokenMasker(prefix, REDACTED);
    var holds := Bares(other);
    forall w, k: nat | k <= |w| ensures EditKeeps(m, holds, w, k) {
      PrefixEditKeepsPrefix(other, prefix, w, k);
    }
    RewriteKeeps(m, holds, text);
  }

  lemma PrefixMaskBares(prefix: seq<Byte>, text: seq<Byte>)
    requires TokenPrefix(prefix)
    ensures BareFor(prefix, Rewrite(TokenMasker(prefix, REDACTED), false, text))
  {
    var m := TokenMasker(prefix, REDACTED);
    RewriteIsClean(m, prefix, false, text);
    forall p: nat ensures Bare(prefix, false, Rewrite(m, false, text), p) {
      CleanEverywhere(m, prefix, false, Rewrite(m, false, text), p);
    }
  }

  // ---------------------------------------------------------------- the final cut

  /** Every value assigned to the key is the marker or as much of it as the cut has left. */
  ghost predicate CutMaskedFor(key: seq<Byte>, s: seq<Byte>) {
    forall p: nat :: Assigned(key, false, s, p) ==> ValueIsPrefix(s, p + |key|)
  }

  predicate ValueIsPrefix(s: seq<Byte>, a: nat)
    requires a <= |s|
  {
    ValueRange(s, a).Some? ==> var (vs, ve) := ValueRange(s, a).value; s[vs..ve] <= REDACTED
  }

  /** A skip in a prefix of the string stops where it stops in the string, or at the cut. */
  lemma SkipInPrefix(s: seq<Byte>, e: nat, i: nat, p: Byte -> bool)
    requires i <= e <= |s|
    ensures Skip(s[..e], i, p) == if Skip(s, i, p) < e then Skip(s, i, p) else e
  {
    SkipSkips(s, i, p);
    SkipIs(s[..e], i, p, if Skip(s, i, p) < e then Skip(s, i, p) else e);
  }

  lemma CutKeepsSign(s: seq<Byte>, e: nat, a: nat)
    requires a <= e <= |s| && ValueRange(s[..e], a).Some?
    ensures Skip(s, a, SpaceOrQuote) == Skip(s[..e], a, SpaceOrQuote) < e && ValueRange(s, a).Some?
  {
    SkipInPrefix(s, e, a, SpaceOrQuote);
  }

  lemma CutValueIsPrefix(s: seq<Byte>, e: nat, a: nat)
    requires a <= e <= |s| && ValueIs(s, a, REDACTED)
    ensures ValueIsPrefix(s[..e], a)
  {
    if ValueRange(s[..e], a).Some? {
      CutKeepsSign(s, e, a);
      var c := Skip(s, a, SpaceOrQuote);
      SkipInPrefix(s, e, c + 1, Space);
      var d := Skip(s, c + 1, Space);
      if d < e {
        CutValue(s, e, d);
      }
    }
  }

  lemma CutValue(s: seq<Byte>, e: nat, d: nat)
    requires d < e <= |s|
    requires var vs := ValueStart(s, d); s[vs..Skip(s, vs, InValue(QuoteAt(s, d)))] == REDACTED
    ensures QuoteAt(s[..e], d) == QuoteAt(s, d)
    ensures var vs := ValueStart(s, d); s[..e][vs..Skip(s[..e], vs, InValue(QuoteAt(s, d)))] <= REDACTED
  {
    var vs := ValueStart(s, d);
    SkipInPrefix(s, e, vs, InValue(QuoteAt(s, d)));
    CutSlice(s, e, vs, Skip(s, vs, InValue(QuoteAt(s, d))), REDACTED);
  }

  lemma CutSlice(s: seq<Byte>, e: nat, vs: nat, ve: nat, marker: seq<Byte>)
    requires vs <= ve <= |s| && vs <= e <= |s| && s[vs..ve] == marker
    ensures s[..e][vs..if ve < e then ve else e] <= marker
  {
    if e <= ve {
      assert s[..e][vs..e] == s[vs..ve][..e - vs];
    } else {
      assert s[..e][vs..ve] == s[vs..ve];
    }
  }

  lemma CutKeepsMasked(key: seq<Byte>, s: seq<Byte>, e: nat)
    requires e <= |s| && MaskedFor(key, REDACTED, s)
    ensures CutMaskedFor(key, s[..e])
  {
    forall p: nat | Assigned(key, false, s[..e], p) ensures ValueIsPrefix(s[..e], p + |key|) {
      MatchSame(s, s[..e], key, p, e);
      CutKeepsSign(s, e, p + |key|);
      assert Safe(key, false, s, p, REDACTED);
      CutValueIsPrefix(s, e, p + |key|);
    }
  }

  lemma CutKeepsBare(prefix: seq<Byte>, s: seq<Byte>, e: nat)
    requires e <= |s| && BareFor(prefix, s)
    ensures BareFor(prefix, s[..e])
  {
    forall p: nat ensures Bare(prefix, false, s[..e], p) {
      if MatchesAt(s[..e], prefix, p) && !InToken(false, s[..e], p) {
        MatchSame(s, s[..e], prefix, p, e);
        assert Bare(prefix, false, s, p);
        SkipInPrefix(s, e, p + |prefix|, SecretByte);
      }
    }
  }

  // ---------------------------------------------------------------- the masker

  ghost predicate KeysMasked(keys: seq<seq<Byte>>, n: nat, s: seq<Byte>)
    requires n <= |keys|
  {
    forall i :: 0 <= i < n ==> MaskedFor(keys[i], REDACTED, s)
  }

  ghost predicate PrefixesMasked(prefixes: seq<seq<Byte>>, n: nat, s: seq<Byte>)
    requires n <= |prefixes|
  {
    forall i :: 0 <= i < n ==> BareFor(prefixes[i], s)
  }

  /** Keys and prefixes as the two lists have them. */
  ghost predicate ProperLists(keys: seq<seq<Byte>>, prefixes: seq<seq<Byte>>) {
    && (forall i :: 0 <= i < |keys| ==> IdentifierKey(keys[i]) && IsAscii(keys[i]))
    && (forall i :: 0 <= i < |prefixes| ==> TokenPrefix(prefixes[i]) && IsAscii(prefixes[i]))
  }

  lemma NextKeyMasked(keys: seq<seq<Byte>>, n: nat, s: seq<Byte>)
    requires ProperLists(keys, []) && n < |keys| && KeysMasked(keys, n, s)
    ensures KeysMasked(keys, n + 1, Rewrite(AssignmentMasker(keys[n], REDACTED), false, s))
  {
    KeyMaskMasksKey(keys[n], s);
    forall i | 0 <= i < n
      ensures MaskedFor(keys[i], REDACTED, Rewrite(AssignmentMasker(keys[n], REDACTED), false, s))
    {
      KeyMaskKeepsKey(keys[i], keys[n], s);
    }
  }

  lemma NextPrefixMasked(keys: seq<seq<Byte>>, prefixes: seq<seq<Byte>>, n: nat, s: seq<Byte>)
    requires ProperLists(keys, prefixes) && n < |prefixes|
    requires PrefixesMasked(prefixes, n, s) && KeysMasked(keys, |keys|, s)
    ensures var r := Rewrite(TokenMasker(prefixes[n], REDACTED), false, s);
            PrefixesMasked(prefixes, n + 1, r) && KeysMasked(keys, |keys|, r)
  {
    var r := Rewrite(TokenMasker(prefixes[n], REDACTED), false, s);
    PrefixMaskBares(prefixes[n], s);
    forall i | 0 <= i < n ensures BareFor(prefixes[i], r) {
      PrefixMaskKeepsPrefix(prefixes[i], prefixes[n], s);
    }
    forall i | 0 <= i < |keys| ensures MaskedFor(keys[i], REDACTED, r) {
      PrefixMaskKeepsKey(keys[i], prefixes[n], s);
    }
  }

  /** Nothing listed is left: values are the marker or a cut of it, and no prefix begins a token. */
  ghost predicate NoSecretLeft(keys: seq<seq<Byte>>, prefixes: seq<seq<Byte>>, s: seq<Byte>) {
    && (forall i :: 0 <= i < |keys| ==> CutMaskedFor(keys[i], s))
    && (forall i :: 0 <= i < |prefixes| ==> BareFor(prefixes[i], s))
  }

  lemma CutLeavesNoSecret(keys: seq<seq<Byte>>, prefixes: seq<seq<Byte>>, s: seq<Byte>, cut: seq<Byte>)
    requires cut <= s && KeysMasked(keys, |keys|, s) && PrefixesMasked(prefixes, |prefixes|, s)
    ensures NoSecretLeft(keys, prefixes, cut)
  {
    assert cut == s[..|cut|];
    forall i | 0 <= i < |keys| ensures CutMaskedFor(keys[i], cut) {
      CutKeepsMasked(keys[i], s, |cut|);
    }
    forall i | 0 <= i < |prefixes| ensures BareFor(prefixes[i], cut) {
      CutKeepsBare(prefixes[i], s, |cut|);
    }
  }

  // ---------------------------------------------------------------- what is kept

  /** Texts each of which is the one before with some values of the next key replaced. */
  ghost predicate KeyStages(keys: seq<seq<Byte>>, n: nat, stages: seq<seq<Byte>>)
    requires n <= |keys|
  {
    |stages| == n + 1 && forall i :: 0 <= i < n ==> MaskedFrom(stages[i], stages[i + 1], Values(keys[i]))
  }

  /** Texts each of which is the one before with some tokens of the next prefix replaced. */
  ghost predicate PrefixStages(prefixes: seq<seq<Byte>>, n: nat, stages: seq<seq<Byte>>)
    requires n <= |prefixes|
  {
    |stages| == n + 1 && forall i :: 0 <= i < n ==> MaskedFrom(stages[i], stages[i + 1], Tokens(prefixes[i]))
  }

  ghost predicate LeadsThrough(stages: seq<seq<Byte>>, before: seq<Byte>, after: seq<Byte>) {
    stages != [] && stages[0] == before && stages[|stages| - 1] == after
  }

  /** `after` comes from `before` by replacing values of the keys, one key after the other, and then tokens. */
  ghost predicate IsMasking(keys: seq<seq<Byte>>, prefixes: seq<seq<Byte>>, before: seq<Byte>, after: seq<Byte>) {
    exists ks, ps, mid ::
      && KeyStages(keys, |keys|, ks) && LeadsThrough(ks, before, mid)
      && PrefixStages(prefixes, |prefixes|, ps) && LeadsThrough(ps, mid, after)
  }

  /** The longest front of whole characters within the limit. */
  ghost predicate IsFront(s: seq<Byte>, limit: nat, front: seq<Byte>) {
    && front <= s && |front| <= limit && WellFormed(front)
    && forall e :: |front| < e <= limit && e <= |s| ==> !WellFormed(s[..e])
  }

  /** The output is the front of a masking of the front of the input. */
  ghost predicate IsOutput(keys: seq<seq<Byte>>, prefixes: seq<seq<Byte>>, text: seq<Byte>, limit: nat,
                           output: seq<Byte>)
  {
    exists input, masked ::
      && IsFront(text, limit + DETECTOR_OVERLAP_BYTES, input)
      && IsMasking(keys, prefixes, input, masked)
      && IsFront(masked, limit, output)
  }

  lemma StageAppended(keys: seq<seq<Byte>>, n: nat, stages: seq<seq<Byte>>, text: seq<Byte>, s: seq<Byte>, r: seq<Byte>)
    requires n < |keys| && KeyStages(keys, n, stages) && LeadsThrough(stages, text, s)
    requires MaskedFrom(s, r, Values(keys[n]))
    ensures KeyStages(keys, n + 1, stages + [r]) && LeadsThrough(stages + [r], text, r)
  {
    var next := stages + [r];
    forall i | 0 <= i < n + 1 ensures MaskedFrom(next[i], next[i + 1], Values(keys[i])) {
      assert next[i] == stages[i];
    }
  }

  lemma PrefixStageAppended(prefixes: seq<seq<Byte>>, n: nat, stages: seq<seq<Byte>>, text: seq<Byte>, s: seq<Byte>,
                            r: seq<Byte>)
    requires n < |prefixes| && PrefixStages(prefixes, n, stages) && LeadsThrough(stages, text, s)
    requires MaskedFrom(s, r, Tokens(prefixes[n]))
    ensures PrefixStages(prefixes, n + 1, stages + [r]) && LeadsThrough(stages + [r], text, r)
  {
    var next := stages + [r];
    forall i | 0 <= i < n + 1 ensures MaskedFrom(next[i], next[i + 1], Tokens(prefixes[i])) {
      assert next[i] == stages[i];
    }
  }

  /** What the loop over the keys keeps. */
  lemma NextKeyStage(keys: seq<seq<Byte>>, n: nat, text: seq<Byte>, s: seq<Byte>, stages: seq<seq<Byte>>)
    requires ProperLists(keys, []) && n < |keys| && KeysMasked(keys, n, s) && WellFormed(s)
    requires KeyStages(keys, n, stages) && LeadsThrough(stages, text, s)
    ensures var r := Rewrite(AssignmentMasker(keys[n], REDACTED), false, s);
            && WellFormed(r) && KeysMasked(keys, n + 1, r)
            && KeyStages(keys, n + 1, stages + [r]) && LeadsThrough(stages + [r], text, r)
  {
    MaskAssignmentKeepsUtf8(s, keys[n]);
    NextKeyMasked(keys, n, s);
    KeyMaskSplits(keys[n], s);
    StageAppended(keys, n, stages, text, s, Rewrite(AssignmentMasker(keys[n], REDACTED), false, s));
  }

  /** What the loop over the prefixes keeps. */
  lemma NextPrefixStage(keys: seq<seq<Byte>>, prefixes: seq<seq<Byte>>, n: nat, text: seq<Byte>, s: seq<Byte>,
                        stages: seq<seq<Byte>>)
    requires ProperLists(keys, prefixes) && n < |prefixes| && WellFormed(s)
    requires PrefixesMasked(prefixes, n, s) && KeysMasked(keys, |keys|, s)
    requires PrefixStages(prefixes, n, stages) && LeadsThrough(stages, text, s)
    ensures var r := Rewrite(TokenMasker(prefixes[n], REDACTED), false, s);
            && WellFormed(r) && KeysMasked(keys, |keys|, r) && PrefixesMasked(prefixes, n + 1, r)
            && PrefixStages(prefixes, n + 1, stages + [r]) && LeadsThrough(stages + [r], text, r)
  {
    MaskPrefixedTokenKeepsUtf8(s, prefixes[n]);
    NextPrefixMasked(keys, prefixes, n, s);
    PrefixMaskSplits(prefixes[n], s);
    PrefixStageAppended(prefixes, n, stages, text, s, Rewrite(TokenMasker(prefixes[n], REDACTED), false, s));
  }

  method MaskKeys(text: seq<Byte>, keys: seq<seq<Byte>>) returns (masked: seq<Byte>, ghost stages: seq<seq<Byte>>)
    requires WellFormed(text) && ProperLists(keys, [])
    ensures WellFormed(masked) && KeysMasked(keys, |keys|, masked)
    ensures KeyStages(keys, |keys|, stages) && LeadsThrough(stages, text, masked)
  {
    masked, stages := text, [text];
    for i := 0 to |keys|
      invariant WellFormed(masked) && KeysMasked(keys, i, masked)
      invariant KeyStages(keys, i, stages) && LeadsThrough(stages, text, masked)
    {
      NextKeyStage(keys, i, text, masked, stages);
      masked := MaskAssignment(masked, keys[i]);
      stages := stages + [masked];
    }
  }

  method MaskPrefixes(text: seq<Byte>, ghost keys: seq<seq<Byte>>, prefixes: seq<seq<Byte>>)
    returns (masked: seq<Byte>, ghost stages: seq<seq<Byte>>)
    requires WellFormed(text) && ProperLists(keys, prefixes) && KeysMasked(keys, |keys|, text)
    ensures WellFormed(masked) && KeysMasked(keys, |keys|, masked) && PrefixesMasked(prefixes, |prefixes|, masked)
    ensures PrefixStages(prefixes, |prefixes|, stages) && LeadsThrough(stages, text, masked)
  {
    masked, stages := text, [text];
    for i := 0 to |prefixes|
      invariant WellFormed(masked) && KeysMasked(keys, |keys|, masked) && PrefixesMasked(prefixes, i, masked)
      invariant PrefixStages(prefixes, i, stages) && LeadsThrough(stages, text, masked)
    {
      NextPrefixStage(keys, prefixes, i, text, masked, stages);
      masked := MaskPrefixedToken(masked, prefixes[i]);
      stages := stages + [masked];
    }
  }

  method MaskListed(text: seq<Byte>, keys: seq<seq<Byte>>, prefixes: seq<seq<Byte>>, maxOutputBytes: nat)
    returns (masked: seq<Byte>)
    requires WellFormed(text) && ProperLists(keys, prefixes)
    ensures WellFormed(masked) && |masked| <= maxOutputBytes && NoSecretLeft(keys, prefixes, masked)
    ensures IsOutput(keys, prefixes, text, maxOutputBytes, masked)
  {
    var input := Prefix(text, maxOutputBytes + DETECTOR_OVERLAP_BYTES);
    var keysMasked, ks := MaskKeys(input, keys);
    var allMasked, ps := MaskPrefixes(keysMasked, keys, prefixes);
    masked := Prefix(allMasked, maxOutputBytes);
    CutLeavesNoSecret(keys, prefixes, allMasked, masked);
    Masking(keys, prefixes, ks, ps, input, keysMasked, allMasked);
    Output(keys, prefixes, text, input, allMasked, maxOutputBytes, masked);
  }

  lemma Masking(keys: seq<seq<Byte>>, prefixes: seq<seq<Byte>>, ks: seq<seq<Byte>>, ps: seq<seq<Byte>>,
                before: seq<Byte>, mid: seq<Byte>, after: seq<Byte>)
    requires KeyStages(keys, |keys|, ks) && LeadsThrough(ks, before, mid)
    requires PrefixStages(prefixes, |prefixes|, ps) && LeadsThrough(ps, mid, after)
    ensures IsMasking(keys, prefixes, before, after)
  {
  }

  lemma Output(keys: seq<seq<Byte>>, prefixes: seq<seq<Byte>>, text: seq<Byte>, input: seq<Byte>, masked: seq<Byte>,
               limit: nat, output: seq<Byte>)
    requires IsFront(text, limit + DETECTOR_OVERLAP_BYTES, input) && IsMasking(keys, prefixes, input, masked)
    requires IsFront(masked, limit, output)
    ensures IsOutput(keys, prefixes, text, limit, output)
  {
  }

  // ---------------------------------------------------------------- texts without secrets

  /** No key is assigned a value, and no prefix begins a token. */
  ghost predicate NothingSecret(keys: seq<seq<Byte>>, prefixes: seq<seq<Byte>>, text: seq<Byte>) {
    && (forall i, p: nat :: 0 <= i < |keys| ==> !Assigned(keys[i], false, text, p))
    && (forall i :: 0 <= i < |prefixes| ==> BareFor(prefixes[i], text))
  }

  lemma {:induction false} KeyStagesStandStill(keys: seq<seq<Byte>>, stages: seq<seq<Byte>>, text: seq<Byte>, n: nat)
    requires KeyStages(keys, |keys|, stages) && n <= |keys| && stages[0] == text
    requires forall i, p: nat :: 0 <= i < |keys| ==> !Assigned(keys[i], false, text, p)
    ensures stages[n] == text
  {
    if n > 0 {
      KeyStagesStandStill(keys, stages, text, n - 1);
      assert MaskedFrom(stages[n - 1], stages[n - 1 + 1], Values(keys[n - 1]));
      UnassignedIsKept(keys[n - 1], text, stages[n]);
    }
  }

  lemma UnassignedIsKept(key: seq<Byte>, before: seq<Byte>, after: seq<Byte>)
    requires MaskedFrom(before, after, Values(key)) && forall p: nat :: !Assigned(key, false, before, p)
    ensures after == before
  {
    var secret := Values(key);
    forall i: nat, j: nat ensures !secret(before, i, j) {
      assert secret(before, i, j) <==> IsValue(key, before, i, j);
    }
    NoSecretNoChange(before, after, secret);
  }

  lemma BareIsKept(prefix: seq<Byte>, before: seq<Byte>, after: seq<Byte>)
    requires MaskedFrom(before, after, Tokens(prefix)) && BareFor(prefix, before)
    ensures after == before
  {
    var secret := Tokens(prefix);
    forall i: nat, j: nat ensures !secret(before, i, j) {
      assert Bare(prefix, false, before, i);
    }
    NoSecretNoChange(before, after, secret);
  }

  lemma {:induction false} PrefixStagesStandStill(prefixes: seq<seq<Byte>>, stages: seq<seq<Byte>>, text: seq<Byte>,
                                                  n: nat)
    requires PrefixStages(prefixes, |prefixes|, stages) && n <= |prefixes| && stages[0] == text
    requires forall i :: 0 <= i < |prefixes| ==> BareFor(prefixes[i], text)
    ensures stages[n] == text
  {
    if n > 0 {
      PrefixStagesStandStill(prefixes, stages, text, n - 1);
      assert MaskedFrom(stages[n - 1], stages[n - 1 + 1], Tokens(prefixes[n - 1]));
      BareIsKept(prefixes[n - 1], text, stages[n]);
    }
  }

  lemma NothingSecretNothingMasked(keys: seq<seq<Byte>>, prefixes: seq<seq<Byte>>, before: seq<Byte>, after: seq<Byte>)
    requires IsMasking(keys, prefixes, before, after) && NothingSecret(keys, prefixes, before)
    ensures after == before
  {
    var ks, ps, mid :| && KeyStages(keys, |keys|, ks) && LeadsThrough(ks, before, mid)
                       && PrefixStages(prefixes, |prefixes|, ps) && LeadsThrough(ps, mid, after);
    KeyStagesStandStill(keys, ks, before, |keys|);
    PrefixStagesStandStill(prefixes, ps, before, |prefixes|);
  }

  lemma FrontOfShort(s: seq<Byte>, limit: nat, front: seq<Byte>)
    requires IsFront(s, limit, front) && WellFormed(s) && |s| <= limit
    ensures front == s
  {
    assert s[..|s|] == s && front == s[..|front|];
  }

  /** A text within the limit that holds no secret comes out unchanged. */
  lemma HarmlessTextIsKept(keys: seq<seq<Byte>>, prefixes: seq<seq<Byte>>, text: seq<Byte>, limit: nat,
                           output: seq<Byte>)
    requires IsOutput(keys, prefixes, text, limit, output) && WellFormed(text) && |text| <= limit
    requires NothingSecret(keys, prefixes, text)
    ensures output == text
  {
    var input, masked :| && IsFront(text, limit + DETECTOR_OVERLAP_BYTES, input)
                         && IsMasking(keys, prefixes, input, masked) && IsFront(masked, limit, output);
    FrontOfShort(text, limit + DETECTOR_OVERLAP_BYTES, input);
    NothingSecretNothingMasked(keys, prefixes, text, masked);
    FrontOfShort(text, limit, output);
  }

  function AllAscii(texts: seq<string>): (words: seq<seq<Byte>>)
    ensures |words| == |texts| && forall i :: 0 <= i < |texts| ==> words[i] == Ascii(texts[i])
  {
    seq(|texts|, i requires 0 <= i < |texts| => Ascii(texts[i]))
  }

  lemma ListedPrefix(i: nat)
    requires i < |SECRET_PREFIXES|
    ensures Identifier(Ascii(SECRET_PREFIXES[i])[0])
  {
    var prefix := SECRET_PREFIXES[i];
    assert prefix[0] in ['s', 'p'] && Ascii(prefix)[0] == prefix[0] as int;
  }

  lemma TheLists()
    ensures ProperLists(AllAscii(SENSITIVE_KEYS), AllAscii(SECRET_PREFIXES))
  {
    ListedSecretsAreCovered();
    forall i | 0 <= i < |SECRET_PREFIXES| ensures Identifier(Ascii(SECRET_PREFIXES[i])[0]) {
      ListedPrefix(i);
    }
  }

  /**
   `mask` with personal-data redaction off: whole characters only, never over the limit, and no listed key has a
   value but the marker or its cut-off front, nor does a listed prefix begin a token.
   */
  method Mask(text: seq<Byte>, maxOutputBytes: nat) returns (masked: seq<Byte>)
    requires WellFormed(text)
    ensures WellFormed(masked) && |masked| <= maxOutputBytes
    ensures NoSecretLeft(AllAscii(SENSITIVE_KEYS), AllAscii(SECRET_PREFIXES), masked)
    ensures IsOutput(AllAscii(SENSITIVE_KEYS), AllAscii(SECRET_PREFIXES), text, maxOutputBytes, masked)
    ensures |text| <= maxOutputBytes && NothingSecret(AllAscii(SENSITIVE_KEYS), AllAscii(SECRET_PREFIXES), text) ==>
            masked == text
  {
    TheLists();
    masked := MaskChecked(text, AllAscii(SENSITIVE_KEYS), AllAscii(SECRET_PREFIXES), maxOutputBytes);
  }

  method MaskChecked(text: seq<Byte>, keys: seq<seq<Byte>>, prefixes: seq<seq<Byte>>, maxOutputBytes: nat)
    returns (masked: seq<Byte>)
    requires WellFormed(text) && ProperLists(keys, prefixes)
    ensures WellFormed(masked) && |masked| <= maxOutputBytes && NoSecretLeft(keys, prefixes, masked)
    ensures IsOutput(keys, prefixes, text, maxOutputBytes, masked)
    ensures |text| <= maxOutputBytes && NothingSecret(keys, prefixes, text) ==> masked == text
  {
    masked := MaskListed(text, keys, prefixes, maxOutputBytes);
    if |text| <= maxOutputBytes && NothingSecret(keys, prefixes, text) {
      HarmlessTextIsKept(keys, prefixes, text, maxOutputBytes, masked);
    }
  }
}
