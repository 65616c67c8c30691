/**
 Replacing one more range by the marker keeps what earlier maskings achieved: a value assigned to a key
 masked before is still the marker, and a prefix masked before still begins no token.
 */
module MaskEdits {
  import opened Widths
  import opened TraceMasker
  import opened SecretTokens
  import opened MaskedText

  /** Every value assigned to the key is the marker. */
  ghost predicate MaskedFor(key: seq<Byte>, marker: seq<Byte>, s: seq<Byte>) {
    forall p: nat :: Safe(key, false, s, p, marker)
  }

  /** No token begins with the prefix. */
  ghost predicate BareFor(prefix: seq<Byte>, s: seq<Byte>) {
    forall p: nat :: Bare(prefix, false, s, p)
  }

  function Edit(s: seq<Byte>, from: nat, to: nat, marker: seq<Byte>): seq<Byte>
    requires from <= to <= |s|
  {
    s[..from] + marker + s[to..]
  }

  lemma EditParts(s: seq<Byte>, from: nat, to: nat, marker: seq<Byte>)
    requires from <= to <= |s|
    ensures var r := Edit(s, from, to, marker);
            && |r| >= from + |marker|
            && r[..from] == s[..from] && r[from..from + |marker|] == marker && r[from + |marker|..] == s[to..]
            && (forall i :: 0 <= i < from ==> r[i] == s[i])
            && (forall i :: 0 <= i < |marker| ==> r[from + i] == marker[i])
  {
  }

  // ---------------------------------------------------------------- assignments before the edit

  /** The range `[from, to)` lies behind the value of the key that ends at `a` and what ends it, or is that value. */
  predicate OutOfTheWay(s: seq<Byte>, a: nat, from: nat, to: nat)
    requires a <= |s|
  {
    ValueRange(s, a).Some? ==> var (vs, ve) := ValueRange(s, a).value; ve < from || (from == vs && to == ve)
  }

  /** Two strings that agree up to `k` have the same value range if it ends before `k`. */
  lemma RangeSame(s: seq<Byte>, r: seq<Byte>, a: nat, k: nat)
    requires a <= |s| && ValueRange(s, a).Some? && ValueRange(s, a).value.1 < k <= |s| && k < |r|
    requires forall i :: 0 <= i < k ==> r[i] == s[i]
    ensures ValueRange(r, a) == ValueRange(s, a)
  {
    var c := Skip(s, a, SpaceOrQuote);
    var d := Skip(s, c + 1, Space);
    SkipSame(s, r, a, SpaceOrQuote, k);
    SkipSame(s, r, c + 1, Space, k);
    SkipSame(s, r, ValueStart(s, d), InValue(QuoteAt(s, d)), k);
  }

  /** A sign of assignment found before the edit was there before it. */
  lemma SignWasThere(s: seq<Byte>, r: seq<Byte>, a: nat, k: nat)
    requires a <= k <= |s| && k < |r| && 65 <= r[k] <= 93
    requires forall i :: 0 <= i < k ==> r[i] == s[i]
    requires ValueRange(r, a).Some?
    ensures ValueRange(s, a).Some?
  {
    SkipSkips(r, a, SpaceOrQuote);
    var c := Skip(r, a, SpaceOrQuote);
    assert c <= k;
    assert c < k;
    SkipIs(s, a, SpaceOrQuote, c);
  }

  lemma KeyEndsBefore(key: seq<Byte>, r: seq<Byte>, p: nat, k: nat)
    requires IdentifierKey(key) && MatchesAt(r, key, p) && p <= k < |r| && !Identifier(r[k])
    ensures p + |key| <= k
  {
    if k < p + |key| {
      assert Lower(r[p + (k - p)]) == key[k - p];
      LowerKeepsClasses(r[k]);
    }
  }

  lemma MatchSame(s: seq<Byte>, r: seq<Byte>, key: seq<Byte>, p: nat, k: nat)
    requires p + |key| <= k <= |s| && k <= |r| && forall i :: 0 <= i < k ==> r[i] == s[i]
    ensures MatchesAt(r, key, p) <==> MatchesAt(s, key, p)
  {
    assert forall i {:trigger key[i]} :: 0 <= i < |key| ==> r[p + i] == s[p + i];
  }

  /** Two strings agree before `k`, where the second goes on with the marker. */
  predicate AgreeBefore(s: seq<Byte>, r: seq<Byte>, k: nat) {
    k <= |s| && k < |r| && 65 <= r[k] <= 93 && !Identifier(r[k]) && forall i :: 0 <= i < k ==> r[i] == s[i]
  }

  lemma AssignedWasThere(key: seq<Byte>, s: seq<Byte>, r: seq<Byte>, p: nat, k: nat)
    requires IdentifierKey(key) && AgreeBefore(s, r, k) && p < k && Assigned(key, false, r, p)
    ensures p + |key| <= k && Assigned(key, false, s, p)
  {
    KeyEndsBefore(key, r, p, k);
    MatchSame(s, r, key, p, k);
    SignWasThere(s, r, p + |key|, k);
  }

  lemma ValueSame(s: seq<Byte>, r: seq<Byte>, a: nat, k: nat, marker: seq<Byte>)
    requires a <= |s| && a <= |r| && AgreeBefore(s, r, k)
    requires ValueRange(s, a).Some? && ValueRange(s, a).value.1 < k && ValueIs(s, a, marker)
    ensures ValueIs(r, a, marker)
  {
    RangeSame(s, r, a, k);
    var (vs, ve) := ValueRange(s, a).value;
    assert r[vs..ve] == s[vs..ve];
  }

  lemma SafeBeforeEdit(key: seq<Byte>, marker: seq<Byte>, s: seq<Byte>, from: nat, to: nat, p: nat)
    requires IdentifierKey(key) && BracketedMarker(marker) && from <= to <= |s| && p < from
    requires Safe(key, false, s, p, marker)
    requires Assigned(key, false, s, p) ==> OutOfTheWay(s, p + |key|, from, to)
    ensures Safe(key, false, Edit(s, from, to, marker), p, marker)
  {
    var r, a := Edit(s, from, to, marker), p + |key|;
    EditParts(s, from, to, marker);
    assert r[from + 0] == marker[0];
    if Assigned(key, false, r, p) {
      AssignedWasThere(key, s, r, p, from);
      if ValueRange(s, a).value.1 < from {
        ValueSame(s, r, a, from, marker);
      } else {
        EditOfMarker(s, from, to, marker);
      }
    }
  }

  lemma EditOfMarker(s: seq<Byte>, from: nat, to: nat, marker: seq<Byte>)
    requires from <= to <= |s| && s[from..to] == marker
    ensures Edit(s, from, to, marker) == s
  {
  }

  // ---------------------------------------------------------------- assignments behind the edit

  lemma ValueIsIff(s: seq<Byte>, n: nat, a: nat, marker: seq<Byte>)
    requires n <= a <= |s|
    ensures ValueIs(s[n..], a - n, marker) <==> ValueIs(s, a, marker)
  {
    RangeShifts(s, n, a);
    if ValueRange(s, a).Some? {
      var (vs, ve) := ValueRange(s, a).value;
      SliceShifts(s, n, vs, ve);
    }
  }

  lemma SliceShifts(s: seq<Byte>, n: nat, i: nat, j: nat)
    requires n <= i <= j <= |s|
    ensures s[n..][i - n..j - n] == s[i..j]
  {
  }

  lemma AssignedIff(key: seq<Byte>, s: seq<Byte>, n: nat, p: nat)
    requires n < p && n <= |s|
    ensures Assigned(key, false, s[n..], p - n) <==> Assigned(key, false, s, p)
  {
    MatchShifts(s, key, n, p);
    if MatchesAt(s, key, p) {
      RangeShifts(s, n, p + |key|);
    }
  }

  /** Strings with the same tail are safe alike in it. */
  lemma SafeIff(key: seq<Byte>, marker: seq<Byte>, s: seq<Byte>, n: nat, p: nat)
    requires n < p && n <= |s|
    ensures Safe(key, false, s[n..], p - n, marker) <==> Safe(key, false, s, p, marker)
  {
    AssignedIff(key, s, n, p);
    if Assigned(key, false, s, p) {
      ValueIsIff(s, n, p + |key|, marker);
    }
  }

  lemma SameTailSafe(key: seq<Byte>, marker: seq<Byte>, r: seq<Byte>, n: nat, s: seq<Byte>, to: nat, p: nat)
    requires n <= |r| && to <= |s| && r[n..] == s[to..] && n < p
    ensures Safe(key, false, r, p, marker) <==> Safe(key, false, s, p - n + to, marker)
  {
    SafeIff(key, marker, r, n, p);
    SafeIff(key, marker, s, to, p - n + to);
  }

  lemma NoKeyBegins(key: seq<Byte>, r: seq<Byte>, n: nat)
    requires IdentifierKey(key) && (n < |r| ==> !Identifier(r[n]))
    ensures !MatchesAt(r, key, n)
  {
    if MatchesAt(r, key, n) {
      KeyEndsBefore(key, r, n, n);
    }
  }

  lemma SafeInTail(key: seq<Byte>, marker: seq<Byte>, r: seq<Byte>, n: nat, s: seq<Byte>, to: nat, p: nat)
    requires IdentifierKey(key) && n <= |r| && to <= |s| && r[n..] == s[to..] && n <= p
    requires to < |s| ==> !Identifier(s[to])
    requires Safe(key, false, s, p - n + to, marker)
    ensures Safe(key, false, r, p, marker)
  {
    if p == n {
      assert |r[n..]| == |s[to..]| && (n < |r| ==> r[n] == r[n..][0] == s[to..][0] == s[to]);
      NoKeyBegins(key, r, n);
    } else {
      SameTailSafe(key, marker, r, n, s, to, p);
    }
  }

  lemma SafeBehindEdit(key: seq<Byte>, marker: seq<Byte>, s: seq<Byte>, from: nat, to: nat, p: nat)
    requires IdentifierKey(key) && from <= to <= |s| && from + |marker| <= p && (to < |s| ==> !Identifier(s[to]))
    requires Safe(key, false, s, p - (from + |marker|) + to, marker)
    ensures Safe(key, false, Edit(s, from, to, marker), p, marker)
  {
    EditParts(s, from, to, marker);
    SafeInTail(key, marker, Edit(s, from, to, marker), from + |marker|, s, to, p);
  }

  // ---------------------------------------------------------------- one edit

  /** The edited range neither touches an identifier nor gets in the way of a value. */
  ghost predicate SafeEdit(key: seq<Byte>, s: seq<Byte>, from: nat, to: nat) {
    && from <= to <= |s|
    && (to < |s| ==> !Identifier(s[to]))
    && forall p: nat :: p < from && Assigned(key, false, s, p) ==> OutOfTheWay(s, p + |key|, from, to)
  }

  lemma EditKeepsMasked(key: seq<Byte>, marker: seq<Byte>, s: seq<Byte>, from: nat, to: nat)
    requires IdentifierKey(key) && BracketedMarker(marker) && SafeEdit(key, s, from, to) && MaskedFor(key, marker, s)
    ensures MaskedFor(key, marker, Edit(s, from, to, marker))
  {
    forall p: nat ensures Safe(key, false, Edit(s, from, to, marker), p, marker) {
      if p < from {
        SafeBeforeEdit(key, marker, s, from, to, p);
      } else if p < from + |marker| {
        SafeInMarker(key, marker, s, from, to, p);
      } else {
        SafeBehindEdit(key, marker, s, from, to, p);
      }
    }
  }

  lemma SafeInMarker(key: seq<Byte>, marker: seq<Byte>, s: seq<Byte>, from: nat, to: nat, p: nat)
    requires IdentifierKey(key) && BracketedMarker(marker) && from <= to <= |s| && from <= p < from + |marker|
    ensures Safe(key, false, Edit(s, from, to, marker), p, marker)
  {
    EditParts(s, from, to, marker);
    if Assigned(key, false, Edit(s, from, to, marker), p) {
      NotInsideMarker(key, false, Edit(s, from, to, marker), from, marker, p);
    }
  }

  // ---------------------------------------------------------------- masking another key

  lemma ValueEndsAtNoIdentifier(s: seq<Byte>, a: nat)
    requires a <= |s| && ValueRange(s, a).Some?
    ensures var ve := ValueRange(s, a).value.1; ve < |s| ==> !Identifier(s[ve])
  {
    var d := Skip(s, Skip(s, a, SpaceOrQuote) + 1, Space);
    SkipSkips(s, ValueStart(s, d), InValue(QuoteAt(s, d)));
  }

  /** The value of a key that ends at `b` does not get in the way of a marker assigned to a key that ends at `a`. */
  lemma ValuesApart(s: seq<Byte>, a: nat, b: nat, marker: seq<Byte>)
    requires BracketedMarker(marker) && 0 < a <= |s| && 0 < b <= |s| && Identifier(s[a - 1]) && Identifier(s[b - 1])
    requires ValueRange(s, b).Some? && ValueIs(s, a, marker) && a <= ValueRange(s, b).value.0
    ensures var (from, to) := ValueRange(s, b).value; OutOfTheWay(s, a, from, to)
  {
    var (from, to) := ValueRange(s, b).value;
    if ValueRange(s, a).Some? {
      var (vs, ve) := ValueRange(s, a).value;
      if a < b {
        if b - 1 < vs {
          NoIdentifierBeforeValue(s, a, b - 1);
        } else if b <= ve {
          assert s[vs..ve][b - 1 - vs] == s[b - 1];
          assert b < ve ==> s[vs..ve][b - vs] == s[b];
          KeyInMarker(s, b, vs, marker);
        }
      } else if b < a {
        NoIdentifierBeforeValue(s, b, a - 1);
      }
    }
  }

  /** Inside the marker no key has a value, and the marker's end is no end of a key. */
  lemma KeyInMarker(s: seq<Byte>, b: nat, vs: nat, marker: seq<Byte>)
    requires BracketedMarker(marker) && vs < b <= vs + |marker| <= |s| && s[b - 1] == marker[b - 1 - vs]
    requires b < vs + |marker| ==> s[b] == marker[b - vs]
    ensures !Identifier(s[b - 1]) || ValueRange(s, b).None?
  {
  }

  lemma KeyEndIsIdentifier(key: seq<Byte>, s: seq<Byte>, p: nat)
    requires IdentifierKey(key) && MatchesAt(s, key, p)
    ensures Identifier(s[p + |key| - 1])
  {
    assert Lower(s[p + (|key| - 1)]) == key[|key| - 1];
    LowerKeepsClasses(s[p + |key| - 1]);
  }

  lemma ValueIsSafeEdit(key: seq<Byte>, marker: seq<Byte>, s: seq<Byte>, b: nat)
    requires IdentifierKey(key) && BracketedMarker(marker) && MaskedFor(key, marker, s)
    requires 0 < b <= |s| && Identifier(s[b - 1]) && ValueRange(s, b).Some?
    ensures var (from, to) := ValueRange(s, b).value; SafeEdit(key, s, from, to)
  {
    var (from, to) := ValueRange(s, b).value;
    ValueEndsAtNoIdentifier(s, b);
    forall p: nat | p < from && Assigned(key, false, s, p) ensures OutOfTheWay(s, p + |key|, from, to) {
      NoIdentifierBeforeValue(s, b, from - 1);
      KeyEndsBefore(key, s, p, from - 1);
      KeyEndIsIdentifier(key, s, p);
      assert Safe(key, false, s, p, marker);
      ValuesApart(s, p + |key|, b, marker);
    }
  }

  // ---------------------------------------------------------------- masking a token

  /** A whole token: nothing of it is left on either side. */
  ghost predicate WholeToken(s: seq<Byte>, from: nat, to: nat) {
    && from < to <= |s|
    && (from > 0 ==> !SecretByte(s[from - 1]))
    && (to < |s| ==> !SecretByte(s[to]))
  }

  lemma TokenIsSafeEdit(key: seq<Byte>, marker: seq<Byte>, s: seq<Byte>, from: nat, to: nat)
    requires IdentifierKey(key) && BracketedMarker(marker) && MaskedFor(key, marker, s) && WholeToken(s, from, to)
    requires Identifier(s[from]) && forall i :: 0 <= i < |marker| ==> marker[i] != s[from]
    ensures SafeEdit(key, s, from, to)
  {
    forall p: nat | p < from && Assigned(key, false, s, p) ensures OutOfTheWay(s, p + |key|, from, to) {
      KeyEndsBefore(key, s, p, from - 1);
      assert Safe(key, false, s, p, marker);
      TokenOutOfTheWay(marker, s, p + |key|, from, to);
    }
  }

  lemma TokenOutOfTheWay(marker: seq<Byte>, s: seq<Byte>, a: nat, from: nat, to: nat)
    requires a <= from < |s| && Identifier(s[from]) && ValueIs(s, a, marker)
    requires forall i :: 0 <= i < |marker| ==> marker[i] != s[from]
    ensures OutOfTheWay(s, a, from, to)
  {
    if ValueRange(s, a).Some? {
      var (vs, ve) := ValueRange(s, a).value;
      if from < vs {
        NoIdentifierBeforeValue(s, a, from);
      } else if ve <= from {
        ValueEndsAtNoIdentifier(s, a);
      }
    }
  }

  lemma BareBeforeEdit(prefix: seq<Byte>, marker: seq<Byte>, s: seq<Byte>, from: nat, to: nat, p: nat)
    requires ProperPrefix(prefix, marker) && from <= to <= |s| && p < from && Bare(prefix, false, s, p)
    ensures Bare(prefix, false, Edit(s, from, to, marker), p)
  {
    var r, n := Edit(s, from, to, marker), p + |prefix|;
    EditParts(s, from, to, marker);
    assert r[from + 0] == marker[0];
    if from < n {
      NotMatching(r, prefix, p, from - p);
    } else if MatchesAt(r, prefix, p) && !InToken(false, r, p) {
      MatchSame(s, r, prefix, p, from);
      SkipSkips(s, n, SecretByte);
      SkipIs(r, n, SecretByte, n);
    }
  }

  lemma BareInMarker(prefix: seq<Byte>, marker: seq<Byte>, s: seq<Byte>, from: nat, to: nat, p: nat)
    requires ProperPrefix(prefix, marker) && from <= to <= |s| && from <= p < from + |marker|
    ensures Bare(prefix, false, Edit(s, from, to, marker), p)
  {
    var r := Edit(s, from, to, marker);
    EditParts(s, from, to, marker);
    if MatchesAt(r, prefix, p) {
      assert r[from + (p - from)] == marker[p - from];
    }
  }

  lemma BareIff(prefix: seq<Byte>, s: seq<Byte>, n: nat, p: nat)
    requires n < p && n <= |s|
    ensures Bare(prefix, false, s[n..], p - n) <==> Bare(prefix, false, s, p)
  {
    MatchShifts(s, prefix, n, p);
    if MatchesAt(s, prefix, p) {
      SkipShifts(s, n, p + |prefix|, SecretByte);
    }
  }

  lemma NoPrefixBegins(prefix: seq<Byte>, r: seq<Byte>, n: nat)
    requires SecretPrefix(prefix) && (n < |r| ==> !SecretByte(r[n]))
    ensures !MatchesAt(r, prefix, n)
  {
    if n < |r| {
      LowerKeepsClasses(r[n]);
      NotMatching(r, prefix, n, 0);
    }
  }

  lemma NotMatching(r: seq<Byte>, prefix: seq<Byte>, p: nat, i: nat)
    requires i < |prefix| && p + i < |r| && Lower(r[p + i]) != prefix[i]
    ensures !MatchesAt(r, prefix, p)
  {
  }

  lemma BareInTail(prefix: seq<Byte>, r: seq<Byte>, n: nat, s: seq<Byte>, to: nat, p: nat)
    requires SecretPrefix(prefix) && n <= |r| && to <= |s| && r[n..] == s[to..] && n <= p
    requires to < |s| ==> !SecretByte(s[to])
    requires Bare(prefix, false, s, p - n + to)
    ensures Bare(prefix, false, r, p)
  {
    if p == n {
      assert |r[n..]| == |s[to..]| && (n < |r| ==> r[n] == r[n..][0] == s[to..][0] == s[to]);
      NoPrefixBegins(prefix, r, n);
    } else {
      BareIff(prefix, r, n, p);
      BareIff(prefix, s, to, p - n + to);
    }
  }

  lemma BareBehindEdit(prefix: seq<Byte>, marker: seq<Byte>, s: seq<Byte>, from: nat, to: nat, p: nat)
    requires SecretPrefix(prefix) && from <= to <= |s| && from + |marker| <= p && (to < |s| ==> !SecretByte(s[to]))
    requires Bare(prefix, false, s, p - (from + |marker|) + to)
    ensures Bare(prefix, false, Edit(s, from, to, marker), p)
  {
    EditParts(s, from, to, marker);
    BareInTail(prefix, Edit(s, from, to, marker), from + |marker|, s, to, p);
  }

  lemma EditKeepsBare(prefix: seq<Byte>, marker: seq<Byte>, s: seq<Byte>, from: nat, to: nat)
    requires SecretPrefix(prefix) && ProperPrefix(prefix, marker) && WholeToken(s, from, to) && BareFor(prefix, s)
    ensures BareFor(prefix, Edit(s, from, to, marker))
  {
    forall p: nat ensures Bare(prefix, false, Edit(s, from, to, marker), p) {
      if p < from {
        BareBeforeEdit(prefix, marker, s, from, to, p);
      } else if p < from + |marker| {
        BareInMarker(prefix, marker, s, from, to, p);
      } else {
        BareBehindEdit(prefix, marker, s, from, to, p);
      }
    }
  }
}
