/**
 What masking keeps: the masked text is the text with some ranges replaced by the marker, each of them a value
 or a token of that text, and every other byte kept in order.
 */
module MaskSplits {
  import opened Widths
  import opened Wrappers
  import opened Redactor
  import opened TraceMasker
  import opened SecretTokens
  import opened MaskedText
  import MaskEdits

  datatype Piece = Kept(bytes: seq<Byte>) | Replaced(bytes: seq<Byte>)

  /** The text the pieces were cut from. */
  function Original(ps: seq<Piece>): seq<Byte> {
    if ps == [] then [] else ps[0].bytes + Original(ps[1..])
  }

  /** The text they show. */
  function Shown(ps: seq<Piece>): seq<Byte> {
    if ps == [] then [] else (if ps[0].Kept? then ps[0].bytes else REDACTED) + Shown(ps[1..])
  }

  /** Every replaced piece, the first piece standing at `at`, is a secret of the text. */
  ghost predicate OnlySecrets(ps: seq<Piece>, text: seq<Byte>, at: nat, secret: (seq<Byte>, nat, nat) -> bool) {
    ps != [] ==>
      && (ps[0].Replaced? ==> secret(text, at, at + |ps[0].bytes|))
      && OnlySecrets(ps[1..], text, at + |ps[0].bytes|, secret)
  }

  /** `after` is `before` with some of its secrets replaced by the marker. */
  ghost predicate Splits(ps: seq<Piece>, before: seq<Byte>, after: seq<Byte>, secret: (seq<Byte>, nat, nat) -> bool) {
    Original(ps) == before && Shown(ps) == after && OnlySecrets(ps, before, 0, secret)
  }

  ghost predicate MaskedFrom(before: seq<Byte>, after: seq<Byte>, secret: (seq<Byte>, nat, nat) -> bool) {
    exists ps :: Splits(ps, before, after, secret)
  }

  // ---------------------------------------------------------------- the pieces of a rewriting

  /** Wherever the masker may stand, what it replaces is a secret of the whole text, and it may stand behind it. */
  ghost predicate Sound(m: Masker, text: seq<Byte>, stands: (nat, bool) -> bool,
                        secret: (seq<Byte>, nat, nat) -> bool, i: nat, joined: bool)
    requires i <= |text|
  {
    var a := m.rule(joined, text[i..]);
    stands(i, joined) ==>
      && Fits(a, text[i..])
      && (a.Leave? ==> stands(i + a.n, m.inClass(text[i + a.n - 1])))
      && (a.Redact? ==> m.marker != [] && secret(text, i + a.from, i + a.to) && stands(i + a.to, m.AfterMarker()))
  }

  /** Pieces of the text from `i` on that show `after`. */
  ghost predicate PiecesFrom(ps: seq<Piece>, text: seq<Byte>, i: nat, after: seq<Byte>,
                             secret: (seq<Byte>, nat, nat) -> bool)
    requires i <= |text|
  {
    Original(ps) == text[i..] && Shown(ps) == after && OnlySecrets(ps, text, i, secret)
  }

  lemma {:induction false} RewritePieces(m: Masker, text: seq<Byte>, stands: (nat, bool) -> bool,
                                         secret: (seq<Byte>, nat, nat) -> bool, i: nat, joined: bool)
    returns (ps: seq<Piece>)
    requires m.marker == REDACTED && i <= |text| && stands(i, joined)
    requires forall k: nat, j: bool :: k <= |text| ==> Sound(m, text, stands, secret, k, j)
    ensures PiecesFrom(ps, text, i, Rewrite(m, joined, text[i..]), secret)
    decreases |text| - i
  {
    assert Sound(m, text, stands, secret, i, joined);
    match m.rule(joined, text[i..])
    case Stop =>
      ps := OnePiece(text[i..], text, i, secret);
    case Leave(n) =>
      var rest := RewritePieces(m, text, stands, secret, i + n, m.inClass(text[i + n - 1]));
      ps := LeavePieces(m, joined, text, i, n, rest, secret);
    case Redact(from, to) =>
      var rest := RewritePieces(m, text, stands, secret, i + to, m.AfterMarker());
      ps := RedactPieces(m, joined, text, i, from, to, rest, secret);
  }

  lemma SuffixOfSuffix(text: seq<Byte>, i: nat, n: nat)
    requires i + n <= |text|
    ensures text[i..][n..] == text[i + n..]
  {
  }

  lemma ThreeParts(s: seq<Byte>, from: nat, to: nat)
    requires from <= to <= |s|
    ensures s[..from] + (s[from..to] + s[to..]) == s
  {
  }

  lemma TwoParts(s: seq<Byte>, n: nat)
    requires n <= |s|
    ensures s[..n] + s[n..] == s
  {
  }

  lemma LeavePieces(m: Masker, joined: bool, text: seq<Byte>, i: nat, n: nat, rest: seq<Piece>,
                    secret: (seq<Byte>, nat, nat) -> bool)
    returns (ps: seq<Piece>)
    requires m.marker != [] && i <= |text| && 0 < n <= |text| - i && m.rule(joined, text[i..]) == Leave(n)
    requires PiecesFrom(rest, text, i + n, Rewrite(m, m.inClass(text[i + n - 1]), text[i + n..]), secret)
    ensures PiecesFrom(ps, text, i, Rewrite(m, joined, text[i..]), secret)
  {
    var head, tail := text[i..][..n], text[i + n..];
    SuffixOfSuffix(text, i, n);
    TwoParts(text[i..], n);
    ps := KeepThen(head, rest, text, i, secret);
    assert head[n - 1] == text[i + n - 1];
    RewriteLeft(m, joined, head, tail);
  }

  lemma RedactPieces(m: Masker, joined: bool, text: seq<Byte>, i: nat, from: nat, to: nat, rest: seq<Piece>,
                     secret: (seq<Byte>, nat, nat) -> bool)
    returns (ps: seq<Piece>)
    requires m.marker == REDACTED && i <= |text| && m.rule(joined, text[i..]) == Redact(from, to)
    requires Fits(Redact(from, to), text[i..]) && secret(text, i + from, i + to)
    requires PiecesFrom(rest, text, i + to, Rewrite(m, m.AfterMarker(), text[i + to..]), secret)
    ensures PiecesFrom(ps, text, i, Rewrite(m, joined, text[i..]), secret)
  {
    SuffixOfSuffix(text, i, to);
    ps := CutPieces(text[i..], from, to, rest, text, i, secret);
    RewriteOfRedact(m, joined, text[i..], from, to);
  }

  lemma CutPieces(s: seq<Byte>, from: nat, to: nat, rest: seq<Piece>, text: seq<Byte>, at: nat,
                  secret: (seq<Byte>, nat, nat) -> bool)
    returns (ps: seq<Piece>)
    requires from <= to <= |s| && Original(rest) == s[to..]
    requires OnlySecrets(rest, text, at + to, secret) && secret(text, at + from, at + to)
    ensures Original(ps) == s && Shown(ps) == s[..from] + (REDACTED + Shown(rest)) && OnlySecrets(ps, text, at, secret)
  {
    var cut := ReplaceThen(s[from..to], rest, text, at + from, secret);
    ps := KeepThen(s[..from], cut, text, at, secret);
    ThreeParts(s, from, to);
  }

  lemma RewriteOfRedact(m: Masker, joined: bool, s: seq<Byte>, from: nat, to: nat)
    requires m.marker != [] && m.rule(joined, s) == Redact(from, to) && Fits(Redact(from, to), s)
    ensures Rewrite(m, joined, s) == s[..from] + (m.marker + Rewrite(m, m.AfterMarker(), s[to..]))
  {
    Associate(s[..from], m.marker, Rewrite(m, m.AfterMarker(), s[to..]));
  }

  lemma OnePiece(s: seq<Byte>, text: seq<Byte>, at: nat, secret: (seq<Byte>, nat, nat) -> bool) returns (ps: seq<Piece>)
    ensures Original(ps) == s && Shown(ps) == s && OnlySecrets(ps, text, at, secret)
  {
    ps := [Kept(s)];
    assert ps[1..] == [];
  }

  lemma KeepThen(s: seq<Byte>, rest: seq<Piece>, text: seq<Byte>, at: nat, secret: (seq<Byte>, nat, nat) -> bool)
    returns (ps: seq<Piece>)
    requires OnlySecrets(rest, text, at + |s|, secret)
    ensures Original(ps) == s + Original(rest) && Shown(ps) == s + Shown(rest) && OnlySecrets(ps, text, at, secret)
  {
    ps := [Kept(s)] + rest;
    assert ps[1..] == rest;
  }

  lemma ReplaceThen(s: seq<Byte>, rest: seq<Piece>, text: seq<Byte>, at: nat, secret: (seq<Byte>, nat, nat) -> bool)
    returns (ps: seq<Piece>)
    requires OnlySecrets(rest, text, at + |s|, secret) && secret(text, at, at + |s|)
    ensures Original(ps) == s + Original(rest) && Shown(ps) == REDACTED + Shown(rest)
    ensures OnlySecrets(ps, text, at, secret)
  {
    ps := [Replaced(s)] + rest;
    assert ps[1..] == rest;
  }

  // ---------------------------------------------------------------- assigned values

  /** `text[i..j]` is the value assigned to the key where it stands by itself. */
  ghost predicate IsValue(key: seq<Byte>, text: seq<Byte>, i: nat, j: nat) {
    exists p: nat :: IsValueAt(key, text, p, i, j)
  }

  predicate IsValueAt(key: seq<Byte>, text: seq<Byte>, p: nat, i: nat, j: nat) {
    Assigned(key, false, text, p) && ValueRange(text, p + |key|) == Some((i, j))
  }

  ghost function Values(key: seq<Byte>): (seq<Byte>, nat, nat) -> bool {
    (text: seq<Byte>, i: nat, j: nat) => IsValue(key, text, i, j)
  }

  /** Where a masking of the key may stand, and what it then knows about the byte before. */
  predicate KeyStands(text: seq<Byte>, i: nat, joined: bool) {
    && i <= |text|
    && (joined == (i > 0 && Identifier(text[i - 1])) || i == |text| || !Identifier(text[i]))
  }

  ghost function KeyStandsAt(text: seq<Byte>): (nat, bool) -> bool {
    (i: nat, joined: bool) => KeyStands(text, i, joined)
  }

  /** An occurrence found behind `i` stands by itself in the whole text if it does in the rest. */
  lemma StandsByItself(key: seq<Byte>, text: seq<Byte>, i: nat, joined: bool, q: nat)
    requires IdentifierKey(key) && KeyStands(text, i, joined) && MatchesAt(text[i..], key, q)
    requires !JoinedLeft(joined, text[i..], q)
    ensures MatchesAt(text, key, i + q) && !JoinedLeft(false, text, i + q)
  {
    MatchShifts(text, key, i, i + q);
    if q == 0 {
      assert Lower(text[i..][0 + 0]) == key[0];
      LowerKeepsClasses(text[i]);
    }
  }

  /** What a decision at `i` means for the whole text. */
  ghost predicate KeySound(key: seq<Byte>, text: seq<Byte>, i: nat, a: Action)
    requires i <= |text|
  {
    && Fits(a, text[i..])
    && (a.Leave? ==> KeyStandsAt(text)(i + a.n, Identifier(text[i + a.n - 1])))
    && (a.Redact? ==> Values(key)(text, i + a.from, i + a.to) && KeyStandsAt(text)(i + a.to, false))
  }

  lemma FoundMatches(s: seq<Byte>, key: seq<Byte>)
    requires Find(s, key).Some?
    ensures MatchesAt(s, key, Find(s, key).value)
  {
    FindFromFindsFirst(s, key, 0);
  }

  lemma KeyRoundIsSound(key: seq<Byte>, text: seq<Byte>, i: nat, joined: bool)
    requires IdentifierKey(key) && KeyStands(text, i, joined)
    ensures KeySound(key, text, i, AssignmentAction(key, joined, text[i..]))
  {
    if Find(text[i..], key).Some? {
      FoundMatches(text[i..], key);
      ActionAt(key, joined, text[i..], Find(text[i..], key).value);
      FoundIsSound(key, text, i, joined, Find(text[i..], key).value);
    }
  }

  lemma LeavingIsSound(key: seq<Byte>, text: seq<Byte>, i: nat, q: nat)
    requires i <= |text| && IdentifierKey(key) && MatchesAt(text[i..], key, q)
    ensures KeySound(key, text, i, Leave(q + |key|))
  {
  }

  lemma RedactingIsSound(key: seq<Byte>, text: seq<Byte>, i: nat, joined: bool, q: nat, from: nat, to: nat)
    requires IdentifierKey(key) && KeyStands(text, i, joined) && MatchesAt(text[i..], key, q)
    requires !JoinedLeft(joined, text[i..], q) && ValueRange(text[i..], q + |key|) == Some((from, to))
    ensures KeySound(key, text, i, Redact(from, to))
  {
    ValueInWhole(key, text, i, joined, q, from, to);
  }

  /** Whatever is decided about an occurrence is sound. */
  lemma FoundIsSound(key: seq<Byte>, text: seq<Byte>, i: nat, joined: bool, q: nat)
    requires IdentifierKey(key) && KeyStands(text, i, joined) && MatchesAt(text[i..], key, q)
    ensures KeySound(key, text, i, Leave(q + |key|))
    ensures !JoinedLeft(joined, text[i..], q) && ValueRange(text[i..], q + |key|).Some? ==>
            var (from, to) := ValueRange(text[i..], q + |key|).value; KeySound(key, text, i, Redact(from, to))
  {
    LeavingIsSound(key, text, i, q);
    if !JoinedLeft(joined, text[i..], q) && ValueRange(text[i..], q + |key|).Some? {
      var (from, to) := ValueRange(text[i..], q + |key|).value;
      RedactingIsSound(key, text, i, joined, q, from, to);
    }
  }

  lemma KeyIsSound(m: Masker, key: seq<Byte>, text: seq<Byte>, i: nat, joined: bool)
    requires i <= |text| && m.inClass == Identifier && m.marker == REDACTED
    requires KeyStands(text, i, joined) ==> KeySound(key, text, i, m.rule(joined, text[i..]))
    ensures Sound(m, text, KeyStandsAt(text), Values(key), i, joined)
  {
  }

  lemma ValueInWhole(key: seq<Byte>, text: seq<Byte>, i: nat, joined: bool, q: nat, from: nat, to: nat)
    requires IdentifierKey(key) && KeyStands(text, i, joined) && MatchesAt(text[i..], key, q)
    requires !JoinedLeft(joined, text[i..], q) && ValueRange(text[i..], q + |key|) == Some((from, to))
    ensures to <= |text| - i && IsValue(key, text, i + from, i + to) && KeyStands(text, i + to, false)
  {
    StandsByItself(key, text, i, joined, q);
    RangeShifts(text, i, i + q + |key|);
    MaskEdits.ValueEndsAtNoIdentifier(text, i + q + |key|);
    assert IsValueAt(key, text, i + q, i + from, i + to);
  }

  /** Masking a key replaces only values assigned to it. */
  lemma KeyMaskSplits(key: seq<Byte>, text: seq<Byte>)
    requires IdentifierKey(key)
    ensures MaskedFrom(text, Rewrite(AssignmentMasker(key, REDACTED), false, text), Values(key))
  {
    var m := AssignmentMasker(key, REDACTED);
    forall k: nat, j: bool | k <= |text| ensures Sound(m, text, KeyStandsAt(text), Values(key), k, j) {
      if KeyStands(text, k, j) {
        KeyRoundIsSound(key, text, k, j);
      }
      KeyIsSound(m, key, text, k, j);
    }
    var ps := RewritePieces(m, text, KeyStandsAt(text), Values(key), 0, false);
    assert text[0..] == text;
    assert Splits(ps, text, Rewrite(m, false, text), Values(key));
  }

  // ---------------------------------------------------------------- tokens

  /** `text[i..j]` is a token: the prefix where no token is running, and all the token bytes behind it, at least one. */
  predicate IsToken(prefix: seq<Byte>, text: seq<Byte>, i: nat, j: nat) {
    && MatchesAt(text, prefix, i) && !InToken(false, text, i)
    && i + |prefix| < j && j == Skip(text, i + |prefix|, SecretByte)
  }

  ghost function Tokens(prefix: seq<Byte>): (seq<Byte>, nat, nat) -> bool {
    (text: seq<Byte>, i: nat, j: nat) => IsToken(prefix, text, i, j)
  }

  predicate PrefixStands(text: seq<Byte>, i: nat, joined: bool) {
    && i <= |text|
    && (joined == (i > 0 && SecretByte(text[i - 1])) || i == |text| || !SecretByte(text[i]))
  }

  ghost function PrefixStandsAt(text: seq<Byte>): (nat, bool) -> bool {
    (i: nat, joined: bool) => PrefixStands(text, i, joined)
  }

  lemma TokenInWhole(prefix: seq<Byte>, text: seq<Byte>, i: nat, joined: bool, q: nat, to: nat)
    requires SecretPrefix(prefix) && PrefixStands(text, i, joined) && MatchesAt(text[i..], prefix, q)
    requires !InToken(joined, text[i..], q) && to == Skip(text[i..], q + |prefix|, SecretByte) && q + |prefix| < to
    ensures IsToken(prefix, text, i + q, i + to) && PrefixStands(text, i + to, false)
  {
    MatchShifts(text, prefix, i, i + q);
    SkipShifts(text, i, i + q + |prefix|, SecretByte);
    SkipSkips(text, i + q + |prefix|, SecretByte);
    if q == 0 {
      assert Lower(text[i..][0 + 0]) == prefix[0];
      LowerKeepsClasses(text[i]);
    }
  }

  ghost predicate PrefixSound(prefix: seq<Byte>, text: seq<Byte>, i: nat, a: Action)
    requires i <= |text|
  {
    && Fits(a, text[i..])
    && (a.Leave? ==> PrefixStandsAt(text)(i + a.n, SecretByte(text[i + a.n - 1])))
    && (a.Redact? ==> Tokens(prefix)(text, i + a.from, i + a.to) && PrefixStandsAt(text)(i + a.to, false))
  }

  lemma PrefixRoundIsSound(prefix: seq<Byte>, text: seq<Byte>, i: nat, joined: bool)
    requires SecretPrefix(prefix) && PrefixStands(text, i, joined)
    ensures PrefixSound(prefix, text, i, TokenAction(prefix, joined, text[i..]))
  {
    TokenFits(prefix, joined, text[i..]);
    var a := TokenAction(prefix, joined, text[i..]);
    if a.Redact? {
      FoundMatches(text[i..], prefix);
      TokenInWhole(prefix, text, i, joined, a.from, a.to);
      TokenSound(prefix, text, i, a);
    }
  }

  lemma TokenSound(prefix: seq<Byte>, text: seq<Byte>, i: nat, a: Action)
    requires i <= |text| && a.Redact? && Fits(a, text[i..])
    requires IsToken(prefix, text, i + a.from, i + a.to) && PrefixStands(text, i + a.to, false)
    ensures PrefixSound(prefix, text, i, a)
  {
  }

  lemma PrefixIsSound(m: Masker, prefix: seq<Byte>, text: seq<Byte>, i: nat, joined: bool)
    requires i <= |text| && m.inClass == SecretByte && m.marker == REDACTED
    requires PrefixStands(text, i, joined) ==> PrefixSound(prefix, text, i, m.rule(joined, text[i..]))
    ensures Sound(m, text, PrefixStandsAt(text), Tokens(prefix), i, joined)
  {
  }

  /** Masking a prefix replaces only tokens that begin with it. */
  lemma PrefixMaskSplits(prefix: seq<Byte>, text: seq<Byte>)
    requires SecretPrefix(prefix)
    ensures MaskedFrom(text, Rewrite(TokenMasker(prefix, REDACTED), false, text), Tokens(prefix))
  {
    var m := TokenMasker(prefix, REDACTED);
    forall k: nat, j: bool | k <= |text| ensures Sound(m, text, PrefixStandsAt(text), Tokens(prefix), k, j) {
      if PrefixStands(text, k, j) {
        PrefixRoundIsSound(prefix, text, k, j);
      }
      PrefixIsSound(m, prefix, text, k, j);
    }
    var ps := RewritePieces(m, text, PrefixStandsAt(text), Tokens(prefix), 0, false);
    assert text[0..] == text;
    assert Splits(ps, text, Rewrite(m, false, text), Tokens(prefix));
  }

  // ---------------------------------------------------------------- texts without secrets

  lemma {:induction false} NothingReplaced(ps: seq<Piece>, text: seq<Byte>, at: nat,
                                           secret: (seq<Byte>, nat, nat) -> bool)
    requires OnlySecrets(ps, text, at, secret) && forall i: nat, j: nat :: !secret(text, i, j)
    ensures Shown(ps) == Original(ps)
  {
    if ps != [] {
      NothingReplaced(ps[1..], text, at + |ps[0].bytes|, secret);
    }
  }

  /** A text without secrets is masked to itself. */
  lemma NoSecretNoChange(before: seq<Byte>, after: seq<Byte>, secret: (seq<Byte>, nat, nat) -> bool)
    requires MaskedFrom(before, after, secret) && forall i: nat, j: nat :: !secret(before, i, j)
    ensures after == before
  {
    var ps :| Splits(ps, before, after, secret);
    NothingReplaced(ps, before, 0, secret);
  }
}
