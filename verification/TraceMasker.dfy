/**
 The trace masker: secrets assigned to sensitive keys, and secret tokens with a known prefix,
 are replaced in place by a fixed marker.
 */
module TraceMasker {
  import opened Widths
  import opened Wrappers
  import opened Utf8
  import opened Redactor

  /** `[REDACTED]` */
  const REDACTED: seq<Byte> := [91, 82, 69, 68, 65, 67, 84, 69, 68, 93]

  const QUOTE: Byte := 34
  const APOSTROPHE: Byte := 39

  function Lower(b: Byte): Byte {
    if 65 <= b <= 90 then b + 32 else b
  }

  predicate Alphanumeric(b: Byte) {
    48 <= b <= 57 || 65 <= b <= 90 || 97 <= b <= 122
  }

  /** Letters, digits, `_` and `-`. */
  predicate Identifier(b: Byte) {
    Alphanumeric(b) || b == 95 || b == 45
  }

  /** Identifier bytes and `.`. */
  predicate SecretByte(b: Byte) {
    Identifier(b) || b == 46
  }

  predicate Space(b: Byte) {
    b == 32 || b == 9
  }

  predicate SpaceOrQuote(b: Byte) {
    Space(b) || b == QUOTE || b == APOSTROPHE
  }

  /** `:` or `=`. */
  predicate Assigns(b: Byte) {
    b == 58 || b == 61
  }

  /** A quoted value ends at its quote; any other at a carriage return, newline, comma or semicolon. */
  predicate EndsValue(quote: Option<Byte>, b: Byte) {
    match quote
    case Some(q) => b == q
    case None => b == 13 || b == 10 || b == 44 || b == 59
  }

  function InValue(quote: Option<Byte>): Byte -> bool {
    (b: Byte) => !EndsValue(quote, b)
  }

  // ---------------------------------------------------------------- searching

  predicate MatchesAt(s: seq<Byte>, key: seq<Byte>, p: nat) {
    p + |key| <= |s| && forall k :: 0 <= k < |key| ==> Lower(s[p + k]) == key[k]
  }

  /** The first occurrence of `key` in the lower-cased string. */
  function Find(s: seq<Byte>, key: seq<Byte>): (r: Option<nat>)
    ensures r.Some? ==> r.value + |key| <= |s|
  {
    FindFrom(s, key, 0)
  }

  function FindFrom(s: seq<Byte>, key: seq<Byte>, from: nat): (r: Option<nat>)
    ensures r.Some? ==> r.value + |key| <= |s|
    decreases |s| - from
  {
    if from + |key| > |s| then None
    else if MatchesAt(s, key, from) then Some(from)
    else FindFrom(s, key, from + 1)
  }

  lemma {:induction false} FindFromFindsFirst(s: seq<Byte>, key: seq<Byte>, from: nat)
    ensures var r := FindFrom(s, key, from);
            && (r.Some? ==> from <= r.value && MatchesAt(s, key, r.value) &&
                            forall q :: from <= q < r.value ==> !MatchesAt(s, key, q))
            && (r.None? ==> forall q :: from <= q ==> !MatchesAt(s, key, q))
    decreases |s| - from
  {
    if from + |key| <= |s| && !MatchesAt(s, key, from) {
      FindFromFindsFirst(s, key, from + 1);
    }
  }

  lemma FindIs(s: seq<Byte>, key: seq<Byte>, p: nat)
    requires MatchesAt(s, key, p) && forall q :: 0 <= q < p ==> !MatchesAt(s, key, q)
    ensures Find(s, key) == Some(p)
  {
    FindFromFindsFirst(s, key, 0);
  }

  /** A string that agrees up to the end of the first occurrence has the same first occurrence. */
  lemma FindOfPrefix(s: seq<Byte>, key: seq<Byte>, p: nat, r: seq<Byte>)
    requires Find(s, key) == Some(p) && p + |key| <= |r| && r[..p + |key|] == s[..p + |key|]
    ensures Find(r, key) == Some(p)
  {
    FindFromFindsFirst(s, key, 0);
    forall i | 0 <= i < p + |key| ensures r[i] == s[i] {
      assert r[i] == r[..p + |key|][i] == s[..p + |key|][i] == s[i];
    }
    forall q | 0 <= q < p ensures !MatchesAt(r, key, q) {
      assert !MatchesAt(s, key, q);
    }
    FindIs(r, key, p);
  }

  /** The first index from `i` on whose byte does not satisfy `p`. */
  function Skip(s: seq<Byte>, i: nat, p: Byte -> bool): (c: nat)
    requires i <= |s|
    ensures i <= c <= |s|
    decreases |s| - i
  {
    if i < |s| && p(s[i]) then Skip(s, i + 1, p) else i
  }

  lemma {:induction false} SkipSkips(s: seq<Byte>, i: nat, p: Byte -> bool)
    requires i <= |s|
    ensures forall k :: i <= k < Skip(s, i, p) ==> p(s[k])
    ensures Skip(s, i, p) < |s| ==> !p(s[Skip(s, i, p)])
    decreases |s| - i
  {
    if i < |s| && p(s[i]) {
      SkipSkips(s, i + 1, p);
    }
  }

  lemma SkipIs(s: seq<Byte>, i: nat, p: Byte -> bool, c: nat)
    requires i <= c <= |s|
    requires forall k :: i <= k < c ==> p(s[k])
    requires c < |s| ==> !p(s[c])
    ensures Skip(s, i, p) == c
  {
    SkipSkips(s, i, p);
  }

  lemma SkipBehind(x: seq<Byte>, t: seq<Byte>, i: nat, p: Byte -> bool)
    requires i <= |t|
    ensures Skip(x + t, |x| + i, p) == |x| + Skip(t, i, p)
  {
    SkipSkips(t, i, p);
    SkipIs(x + t, |x| + i, p, |x| + Skip(t, i, p));
  }

  method SkipWhile(s: seq<Byte>, i: nat, p: Byte -> bool) returns (c: nat)
    requires i <= |s|
    ensures c == Skip(s, i, p)
  {
    c := i;
    while c < |s| && p(s[c])
      invariant i <= c <= |s| && Skip(s, c, p) == Skip(s, i, p)
    {
      c := c + 1;
    }
  }

  // ---------------------------------------------------------------- assignments

  function QuoteAt(s: seq<Byte>, i: nat): Option<Byte> {
    if i < |s| && (s[i] == QUOTE || s[i] == APOSTROPHE) then Some(s[i]) else None
  }

  function ValueStart(s: seq<Byte>, d: nat): nat {
    if QuoteAt(s, d).Some? then d + 1 else d
  }

  /** The range of the value assigned to a key that ends at `a`, if a value is assigned there at all. */
  function ValueRange(s: seq<Byte>, a: nat): (r: Option<(nat, nat)>)
    requires a <= |s|
    ensures r.Some? ==> a < r.value.0 <= r.value.1 <= |s|
  {
    var c := Skip(s, a, SpaceOrQuote);
    if c >= |s| || !Assigns(s[c]) then None
    else
      var d := Skip(s, c + 1, Space);
      Some((ValueStart(s, d), Skip(s, ValueStart(s, d), InValue(QuoteAt(s, d)))))
  }

  /** Whether the byte before `p` belongs to the same identifier. */
  predicate JoinedLeft(joined: bool, s: seq<Byte>, p: nat)
    requires p <= |s|
  {
    if p > 0 then Identifier(s[p - 1]) else joined
  }

  function AssignmentAction(key: seq<Byte>, joined: bool, s: seq<Byte>): Action {
    var found := Find(s, key);
    if found.None? then Stop
    else
      var p, a := found.value, found.value + |key|;
      if JoinedLeft(joined, s, p) then Leave(a)
      else
        var range := ValueRange(s, a);
        if range.None? then Leave(a) else Redact(range.value.0, range.value.1)
  }

  /** What is decided about the first key, at `q`. */
  lemma ActionAt(key: seq<Byte>, joined: bool, s: seq<Byte>, q: nat)
    requires key != [] && Find(s, key) == Some(q)
    ensures var a, range := AssignmentAction(key, joined, s), ValueRange(s, q + |key|);
            a == if JoinedLeft(joined, s, q) || range.None? then Leave(q + |key|)
                 else Redact(range.value.0, range.value.1)
  {
  }

  /** `m` masks the values assigned to `key`. */
  ghost predicate MasksAssignments(m: Masker, key: seq<Byte>) {
    && m.inClass == Identifier
    && forall joined, s {:trigger Decision(m, joined, s)} :: Decision(m, joined, s) == AssignmentAction(key, joined, s)
  }

  function AssignmentMasker(key: seq<Byte>, marker: seq<Byte>): Masker {
    Masker((joined: bool, s: seq<Byte>) => AssignmentAction(key, joined, s), Identifier, marker)
  }

  lemma SkipShifts(s: seq<Byte>, from: nat, i: nat, p: Byte -> bool)
    requires from <= i <= |s|
    ensures Skip(s[from..], i - from, p) == Skip(s, i, p) - from
  {
    SkipBehind(s[..from], s[from..], i - from, p);
    assert s[..from] + s[from..] == s;
  }

  lemma QuoteShifts(s: seq<Byte>, from: nat, d: nat)
    requires from <= d <= |s|
    ensures QuoteAt(s[from..], d - from) == QuoteAt(s, d)
  {
  }

  lemma ValueShifts(s: seq<Byte>, from: nat, c: nat)
    requires from <= c < |s|
    ensures var d, d' := Skip(s, c + 1, Space), Skip(s[from..], c - from + 1, Space);
            && d' == d - from && QuoteAt(s[from..], d') == QuoteAt(s, d)
            && Skip(s[from..], ValueStart(s[from..], d'), InValue(QuoteAt(s, d))) ==
               Skip(s, ValueStart(s, d), InValue(QuoteAt(s, d))) - from
  {
    SkipShifts(s, from, c + 1, Space);
    var d := Skip(s, c + 1, Space);
    QuoteShifts(s, from, d);
    SkipShifts(s, from, ValueStart(s, d), InValue(QuoteAt(s, d)));
  }

  /** A value range does not depend on what precedes the key. */
  lemma RangeShifts(s: seq<Byte>, from: nat, a: nat)
    requires from <= a <= |s|
    ensures var r, r' := ValueRange(s, a), ValueRange(s[from..], a - from);
            && (r.Some? <==> r'.Some?)
            && (r.Some? ==> r.value == (r'.value.0 + from, r'.value.1 + from))
  {
    SkipShifts(s, from, a, SpaceOrQuote);
    var c := Skip(s, a, SpaceOrQuote);
    if c < |s| {
      assert s[from..][c - from] == s[c];
      ValueShifts(s, from, c);
    }
  }

  method MaskAssignment(text: seq<Byte>, key: seq<Byte>) returns (value: seq<Byte>)
    requires key != []
    ensures value == Rewrite(AssignmentMasker(key, REDACTED), false, text)
  {
    value := MaskAssignmentLoop(text, key, REDACTED, AssignmentMasker(key, REDACTED));
  }

  /** The in-place loop: the string may grow, but what is left to search always shrinks. */
  method MaskAssignmentLoop(text: seq<Byte>, key: seq<Byte>, marker: seq<Byte>, ghost m: Masker)
    returns (value: seq<Byte>)
    requires key != [] && marker != [] && m.marker == marker && MasksAssignments(m, key)
    ensures value == Rewrite(m, false, text)
  {
    value := text;
    var from, more := 0, true;
    SettledFromStart(m, value);
    while more
      invariant 0 <= from <= |value| && Settled(m, value, from) == Rewrite(m, false, text)
      invariant !more ==> value == Settled(m, value, from)
      decreases more, |value| - from
    {
      var action := NextAssignment(value, from, key);
      AssignmentFits(key, JoinedAt(m, value, from), value[from..]);
      value, from, more := Apply(value, from, action, marker, m);
    }
  }

  lemma AssignmentFits(key: seq<Byte>, joined: bool, s: seq<Byte>)
    requires key != []
    ensures Fits(AssignmentAction(key, joined, s), s) && BehindKey(key, AssignmentAction(key, joined, s), s)
  {
  }

  /** One round of the search: find the key, and look at what surrounds it. */
  method NextAssignment(value: seq<Byte>, from: nat, key: seq<Byte>) returns (a: Action)
    requires key != [] && from <= |value|
    ensures a == Shift(AssignmentAction(key, from > 0 && Identifier(value[from - 1]), value[from..]), from)
  {
    var found := Find(value[from..], key);
    if found.None? { return Stop; }
    var start := from + found.value;
    var end := start + |key|;
    if start > 0 && Identifier(value[start - 1]) { return Leave(end); }
    var range := AssignedRange(value, end);
    RangeShifts(value, from, end);
    if range.None? { return Leave(end); }
    return Redact(range.value.0, range.value.1);
  }

  method AssignedRange(value: seq<Byte>, end: nat) returns (range: Option<(nat, nat)>)
    requires end <= |value|
    ensures range == ValueRange(value, end)
  {
    var cursor := SkipWhile(value, end, SpaceOrQuote);
    if cursor >= |value| || !Assigns(value[cursor]) { return None; }
    cursor := SkipWhile(value, cursor + 1, Space);
    var quote := QuoteAt(value, cursor);
    var valueStart := if quote.Some? then cursor + 1 else cursor;
    var valueEnd := SkipWhile(value, valueStart, InValue(quote));
    range := Some((valueStart, valueEnd));
  }

  // ---------------------------------------------------------------- masking assignments twice

  /** A key that cannot begin inside the blanks between a key and its `:` or `=`. */
  predicate ProperKey(key: seq<Byte>) {
    key != [] && !SpaceOrQuote(key[0])
  }

  /** The marker's bytes neither end a value nor look like blanks or quotes. */
  ghost predicate ProperMarker(marker: seq<Byte>) {
    marker != [] && forall i :: 0 <= i < |marker| ==> 65 <= marker[i] <= 93
  }

  /** `r` agrees with `t` at least up to the end of the first key in `t`. */
  predicate KeepsFront(key: seq<Byte>, t: seq<Byte>, r: seq<Byte>) {
    match Find(t, key)
    case None => r == t
    case Some(p) => p + |key| <= |r| && r[..p + |key|] == t[..p + |key|]
  }

  lemma FrontKept(key: seq<Byte>, t: seq<Byte>, n: nat, rest: seq<Byte>)
    requires Find(t, key).Some? && Find(t, key).value + |key| <= n <= |t|
    ensures KeepsFront(key, t, t[..n] + rest)
  {
    var k := Find(t, key).value + |key|;
    ConcatKeeps(t[..n], rest, k);
    assert t[..n][..k] == t[..k];
  }

  /** The decision is about what lies behind the first key. */
  predicate BehindKey(key: seq<Byte>, a: Action, t: seq<Byte>) {
    match Find(t, key)
    case None => a.Stop?
    case Some(p) => (a.Leave? && p + |key| <= a.n) || (a.Redact? && p + |key| <= a.from)
  }

  lemma RewriteBehindKey(m: Masker, key: seq<Byte>, joined: bool, t: seq<Byte>)
    requires m.marker != [] && Fits(m.rule(joined, t), t) && BehindKey(key, m.rule(joined, t), t)
    ensures KeepsFront(key, t, Rewrite(m, joined, t))
  {
    var a := m.rule(joined, t);
    if a.Leave? {
      FrontKept(key, t, a.n, Rewrite(m, m.inClass(t[a.n - 1]), t[a.n..]));
    } else if a.Redact? {
      var rest := Rewrite(m, m.AfterMarker(), t[a.to..]);
      FrontKept(key, t, a.from, m.marker + rest);
      assert t[..a.from] + m.marker + rest == t[..a.from] + (m.marker + rest);
    }
  }

  lemma RewriteKeepsFront(m: Masker, key: seq<Byte>, joined: bool, t: seq<Byte>)
    requires key != [] && m.marker != [] && MasksAssignments(m, key)
    ensures KeepsFront(key, t, Rewrite(m, joined, t))
  {
    AssignmentFits(key, joined, t);
    assert Decision(m, joined, t) == AssignmentAction(key, joined, t);
    RewriteBehindKey(m, key, joined, t);
  }

  lemma ConcatKeeps(x: seq<Byte>, y: seq<Byte>, k: nat)
    requires k <= |x|
    ensures (x + y)[..k] == x[..k]
  {
  }

  /** No key begins before the first byte that is neither a blank nor a quote. */
  lemma KeyBehindBlanks(key: seq<Byte>, t: seq<Byte>)
    requires ProperKey(key) && Find(t, key).Some?
    ensures Skip(t, 0, SpaceOrQuote) <= Find(t, key).value
  {
    FindFromFindsFirst(t, key, 0);
    SkipSkips(t, 0, SpaceOrQuote);
    var p := Find(t, key).value;
    assert MatchesAt(t, key, p);
    assert Lower(t[p + 0]) == key[0];
  }

  /** A key without a value keeps none when the text behind it is masked. */
  lemma StillNoValue(key: seq<Byte>, s: seq<Byte>, a: nat, rest: seq<Byte>)
    requires ProperKey(key) && a <= |s| && ValueRange(s, a).None? && KeepsFront(key, s[a..], rest)
    ensures ValueRange(s[..a] + rest, a).None?
  {
    var t, r := s[a..], s[..a] + rest;
    if Find(t, key).None? {
      assert r == s;
    } else {
      KeyBehindBlanks(key, t);
      SkipShifts(s, a, a, SpaceOrQuote);
      var c, k := Skip(s, a, SpaceOrQuote), Find(t, key).value + |key|;
      SkipSkips(s, a, SpaceOrQuote);
      forall i | a <= i <= c ensures i < |r| && r[i] == s[i] {
        assert rest[i - a] == rest[..k][i - a] == t[..k][i - a] == s[i];
      }
      SkipIs(r, a, SpaceOrQuote, c);
    }
  }

  lemma LeftStaysLeft(key: seq<Byte>, joined: bool, s: seq<Byte>, rest: seq<Byte>)
    requires ProperKey(key) && AssignmentAction(key, joined, s).Leave?
    requires var n := AssignmentAction(key, joined, s).n; n <= |s| && KeepsFront(key, s[n..], rest)
    ensures var n := AssignmentAction(key, joined, s).n;
            AssignmentAction(key, joined, s[..n] + rest) == Leave(n)
  {
    KeyStaysLeft(key, joined, s, Find(s, key).value, rest);
  }

  lemma KeyStaysLeft(key: seq<Byte>, joined: bool, s: seq<Byte>, p: nat, rest: seq<Byte>)
    requires ProperKey(key) && Find(s, key) == Some(p) && KeepsFront(key, s[p + |key|..], rest)
    requires JoinedLeft(joined, s, p) || ValueRange(s, p + |key|).None?
    ensures var r := s[..p + |key|] + rest;
            Find(r, key) == Some(p) && (JoinedLeft(joined, r, p) || ValueRange(r, p + |key|).None?)
  {
    var n := p + |key|;
    ConcatKeeps(s[..n], rest, n);
    SameKey(key, s, s[..n] + rest);
    if ValueRange(s, n).None? {
      StillNoValue(key, s, n, rest);
    }
  }

  /** `r` agrees with `s` before `k`, and goes on with the marker. */
  predicate Marked(s: seq<Byte>, k: nat, marker: seq<Byte>, r: seq<Byte>) {
    k <= |s| && k + |marker| <= |r| && r[..k] == s[..k] && r[k..k + |marker|] == marker
  }

  lemma MarkedBytes(s: seq<Byte>, k: nat, marker: seq<Byte>, r: seq<Byte>)
    requires Marked(s, k, marker, r)
    ensures forall i :: 0 <= i < k ==> r[i] == s[i]
    ensures forall i :: k <= i < k + |marker| ==> r[i] == marker[i - k]
  {
    forall i | 0 <= i < k ensures r[i] == s[i] {
      assert r[..k][i] == s[..k][i];
    }
    forall i | k <= i < k + |marker| ensures r[i] == marker[i - k] {
      assert r[k..k + |marker|][i - k] == marker[i - k];
    }
  }

  /** The blanks between the key and its value are still where they were. */
  lemma SameValueStart(s: seq<Byte>, a: nat, c: nat, d: nat, vs: nat, r: seq<Byte>)
    requires a <= c < d <= vs <= |s| && vs < |r| && 65 <= r[vs] <= 93
    requires Skip(s, a, SpaceOrQuote) == c && Skip(s, c + 1, Space) == d && vs == ValueStart(s, d)
    requires forall i :: 0 <= i < vs ==> r[i] == s[i]
    ensures Skip(r, a, SpaceOrQuote) == c && Skip(r, c + 1, Space) == d && QuoteAt(r, d) == QuoteAt(s, d)
  {
    SkipSame(s, r, a, SpaceOrQuote, vs);
    SkipSame(s, r, c + 1, Space, vs);
  }

  lemma SkipSame(s: seq<Byte>, r: seq<Byte>, i: nat, p: Byte -> bool, k: nat)
    requires i <= k <= |s| && k < |r| && forall n :: 0 <= n < k ==> r[n] == s[n]
    requires Skip(s, i, p) < k || (Skip(s, i, p) == k && !p(r[k]))
    ensures Skip(r, i, p) == Skip(s, i, p)
  {
    SkipSkips(s, i, p);
    SkipIs(r, i, p, Skip(s, i, p));
  }

  lemma MarkerEndsValue(s: seq<Byte>, vs: nat, quote: Option<Byte>, marker: seq<Byte>, r: seq<Byte>)
    requires vs <= |s| && ProperMarker(marker) && Marked(s, vs, marker, r)
    requires quote.Some? ==> quote.value == QUOTE || quote.value == APOSTROPHE
    requires SameTail(s, Skip(s, vs, InValue(quote)), r, vs + |marker|)
    ensures Skip(r, vs, InValue(quote)) == vs + |marker|
  {
    MarkedBytes(s, vs, marker, r);
    SkipSkips(s, vs, InValue(quote));
    SkipIs(r, vs, InValue(quote), vs + |marker|);
  }

  /** After masking, the marker is the whole value. */
  lemma MarkerIsTheValue(s: seq<Byte>, a: nat, marker: seq<Byte>, r: seq<Byte>)
    requires a <= |s| && ValueRange(s, a).Some? && ProperMarker(marker)
    requires Marked(s, ValueRange(s, a).value.0, marker, r)
    requires var (vs, ve) := ValueRange(s, a).value; SameTail(s, ve, r, vs + |marker|)
    ensures var vs := ValueRange(s, a).value.0; ValueRange(r, a) == Some((vs, vs + |marker|))
  {
    var c := Skip(s, a, SpaceOrQuote);
    MarkerIsTheValueAt(s, a, c, Skip(s, c + 1, Space), marker, r);
  }

  lemma MarkerIsTheValueAt(s: seq<Byte>, a: nat, c: nat, d: nat, marker: seq<Byte>, r: seq<Byte>)
    requires a <= c < |s| && Skip(s, a, SpaceOrQuote) == c && Skip(s, c + 1, Space) == d && ProperMarker(marker)
    requires var vs := ValueStart(s, d);
             && Marked(s, vs, marker, r)
             && SameTail(s, Skip(s, vs, InValue(QuoteAt(s, d))), r, vs + |marker|)
    ensures a <= |r| && Skip(r, a, SpaceOrQuote) == c < |r| && r[c] == s[c]
    ensures Skip(r, c + 1, Space) == d && QuoteAt(r, d) == QuoteAt(s, d)
    ensures var vs := ValueStart(s, d); vs <= |r| && Skip(r, vs, InValue(QuoteAt(s, d))) == vs + |marker|
  {
    var vs := ValueStart(s, d);
    MarkerEndsValue(s, vs, QuoteAt(s, d), marker, r);
    MarkedBytes(s, vs, marker, r);
    assert r[vs] == marker[0];
    SameValueStart(s, a, c, d, vs, r);
  }

  /** What follows the marker is what followed the value. */
  predicate SameTail(s: seq<Byte>, ve: nat, r: seq<Byte>, k: nat)
    requires ve <= |s| && k <= |r|
  {
    if ve == |s| then k == |r| else k < |r| && r[k] == s[ve]
  }

  lemma RedactedAgain(key: seq<Byte>, joined: bool, s: seq<Byte>, marker: seq<Byte>, r: seq<Byte>)
    requires key != [] && ProperMarker(marker)
    requires var a := AssignmentAction(key, joined, s);
             a.Redact? && a.to <= |s| && Marked(s, a.from, marker, r) && SameTail(s, a.to, r, a.from + |marker|)
    ensures var a := AssignmentAction(key, joined, s);
            AssignmentAction(key, joined, r) == Redact(a.from, a.from + |marker|)
  {
    var p := Find(s, key).value;
    ActionAt(key, joined, s, p);
    RedactedAt(key, joined, s, p, marker, r);
  }

  lemma RedactedAt(key: seq<Byte>, joined: bool, s: seq<Byte>, p: nat, marker: seq<Byte>, r: seq<Byte>)
    requires key != [] && ProperMarker(marker) && Find(s, key) == Some(p) && !JoinedLeft(joined, s, p)
    requires ValueRange(s, p + |key|).Some?
    requires var (vs, ve) := ValueRange(s, p + |key|).value;
             Marked(s, vs, marker, r) && SameTail(s, ve, r, vs + |marker|)
    ensures var vs := ValueRange(s, p + |key|).value.0;
            AssignmentAction(key, joined, r) == Redact(vs, vs + |marker|)
  {
    SameAssignment(key, s, p + |key|, marker, r);
    ActionAt(key, joined, r, p);
  }

  /** The key and its value are found again, the value being the marker. */
  lemma SameAssignment(key: seq<Byte>, s: seq<Byte>, k: nat, marker: seq<Byte>, r: seq<Byte>)
    requires key != [] && ProperMarker(marker) && Find(s, key).Some? && k == Find(s, key).value + |key|
    requires ValueRange(s, k).Some?
    requires var (vs, ve) := ValueRange(s, k).value; Marked(s, vs, marker, r) && SameTail(s, ve, r, vs + |marker|)
    ensures Find(r, key) == Find(s, key) && k <= |r|
    ensures var p := Find(s, key).value; p > 0 ==> r[p - 1] == s[p - 1]
    ensures var vs := ValueRange(s, k).value.0; ValueRange(r, k) == Some((vs, vs + |marker|))
  {
    MarkedPrefix(s, ValueRange(s, k).value.0, marker, r, k);
    SameKey(key, s, r);
    MarkerIsTheValue(s, k, marker, r);
  }

  lemma RedactedStaysRedacted(key: seq<Byte>, joined: bool, s: seq<Byte>, marker: seq<Byte>, rest: seq<Byte>)
    requires ProperKey(key) && ProperMarker(marker)
    requires var a := AssignmentAction(key, joined, s); a.Redact? && Fits(a, s) && KeepsFront(key, s[a.to..], rest)
    ensures var a := AssignmentAction(key, joined, s);
            AssignmentAction(key, joined, s[..a.from] + marker + rest) == Redact(a.from, a.from + |marker|)
  {
    var a := AssignmentAction(key, joined, s);
    if a.to < |s| {
      FrontByte(key, s[a.to..], rest);
    } else {
      NothingLeft(key, rest);
      assert s[a.to..] == [];
    }
    MarkedConcat(s, a.from, marker, rest);
    RedactedAgain(key, joined, s, marker, s[..a.from] + marker + rest);
  }

  lemma MarkedConcat(s: seq<Byte>, k: nat, marker: seq<Byte>, rest: seq<Byte>)
    requires k <= |s|
    ensures Marked(s, k, marker, s[..k] + marker + rest)
    ensures var r := s[..k] + marker + rest; rest != [] ==> r[k + |marker|] == rest[0]
  {
  }

  lemma NothingLeft(key: seq<Byte>, rest: seq<Byte>)
    requires key != [] && KeepsFront(key, [], rest)
    ensures rest == []
  {
  }

  lemma MarkedPrefix(s: seq<Byte>, k: nat, marker: seq<Byte>, r: seq<Byte>, n: nat)
    requires Marked(s, k, marker, r) && n <= k
    ensures n <= |r| && r[..n] == s[..n]
  {
    assert r[..n] == r[..k][..n] && s[..n] == s[..k][..n];
  }

  /** A string that agrees with `s` beyond its first key has the same first key, joined to its left alike. */
  lemma SameKey(key: seq<Byte>, s: seq<Byte>, r: seq<Byte>)
    requires Find(s, key).Some?
    requires var k := Find(s, key).value + |key|; k <= |r| && r[..k] == s[..k]
    ensures Find(r, key) == Find(s, key)
    ensures var p := Find(s, key).value; p > 0 ==> r[p - 1] == s[p - 1]
  {
    var p := Find(s, key).value;
    FindOfPrefix(s, key, p, r);
    if p > 0 {
      assert r[p - 1] == r[..p + |key|][p - 1] == s[..p + |key|][p - 1];
    }
  }

  lemma FrontByte(key: seq<Byte>, t: seq<Byte>, r: seq<Byte>)
    requires key != [] && t != [] && KeepsFront(key, t, r)
    ensures r != [] && r[0] == t[0]
  {
    if Find(t, key).Some? {
      var k := Find(t, key).value + |key|;
      assert r[0] == r[..k][0] == t[..k][0] == t[0];
    }
  }

  lemma AssignmentMaskingIsStable(m: Masker, key: seq<Byte>, joined: bool, s: seq<Byte>)
    requires ProperKey(key) && ProperMarker(m.marker) && MasksAssignments(m, key)
    ensures Stable(m, joined, s)
  {
    AssignmentFits(key, joined, s);
    if AssignmentAction(key, joined, s).Leave? {
      StableWhenLeft(m, key, joined, s);
    } else if AssignmentAction(key, joined, s).Redact? {
      StableWhenRedacted(m, key, joined, s);
    }
    assert Decision(m, joined, s) == AssignmentAction(key, joined, s);
  }

  lemma StableWhenLeft(m: Masker, key: seq<Byte>, joined: bool, s: seq<Byte>)
    requires ProperKey(key) && m.marker != [] && MasksAssignments(m, key)
    requires var a := AssignmentAction(key, joined, s); a.Leave? && Fits(a, s)
    ensures var n := AssignmentAction(key, joined, s).n;
            Decision(m, joined, s[..n] + Rewrite(m, m.inClass(s[n - 1]), s[n..])) == Leave(n)
  {
    var n := AssignmentAction(key, joined, s).n;
    RewriteKeepsFront(m, key, m.inClass(s[n - 1]), s[n..]);
    LeftStaysLeft(key, joined, s, Rewrite(m, m.inClass(s[n - 1]), s[n..]));
  }

  lemma StableWhenRedacted(m: Masker, key: seq<Byte>, joined: bool, s: seq<Byte>)
    requires ProperKey(key) && ProperMarker(m.marker) && MasksAssignments(m, key)
    requires var a := AssignmentAction(key, joined, s); a.Redact? && Fits(a, s)
    ensures var a := AssignmentAction(key, joined, s);
            var rest := Rewrite(m, m.AfterMarker(), s[a.to..]);
            Rewrite(m, joined, s[..a.from] + m.marker + rest) ==
            s[..a.from] + m.marker + Rewrite(m, m.AfterMarker(), rest)
  {
    var a := AssignmentAction(key, joined, s);
    RedactedDecision(m, key, joined, s);
    RedactMarker(m, joined, s[..a.from], Rewrite(m, m.AfterMarker(), s[a.to..]));
  }

  lemma RedactedDecision(m: Masker, key: seq<Byte>, joined: bool, s: seq<Byte>)
    requires ProperKey(key) && ProperMarker(m.marker) && MasksAssignments(m, key)
    requires var a := AssignmentAction(key, joined, s); a.Redact? && Fits(a, s)
    ensures var a := AssignmentAction(key, joined, s);
            Decision(m, joined, s[..a.from] + m.marker + Rewrite(m, m.AfterMarker(), s[a.to..])) ==
            Redact(a.from, a.from + |m.marker|)
  {
    var a := AssignmentAction(key, joined, s);
    RewriteKeepsFront(m, key, m.AfterMarker(), s[a.to..]);
    RedactedStaysRedacted(key, joined, s, m.marker, Rewrite(m, m.AfterMarker(), s[a.to..]));
  }

  /** Redacting the marker itself changes nothing before or after it. */
  lemma RedactMarker(m: Masker, joined: bool, head: seq<Byte>, rest: seq<Byte>)
    requires m.marker != []
    requires Decision(m, joined, head + m.marker + rest) == Redact(|head|, |head| + |m.marker|)
    ensures Rewrite(m, joined, head + m.marker + rest) == head + m.marker + Rewrite(m, m.AfterMarker(), rest)
  {
    var r, k := head + m.marker + rest, |head| + |m.marker|;
    assert r[..|head|] == head && r[k..] == rest;
  }

  /** Masking a key's values a second time changes nothing. */
  lemma MaskAssignmentTwice(text: seq<Byte>, key: seq<Byte>)
    requires ProperKey(key)
    ensures var m := AssignmentMasker(key, REDACTED);
            Rewrite(m, false, Rewrite(m, false, text)) == Rewrite(m, false, text)
  {
    var m := AssignmentMasker(key, REDACTED);
    forall j, t ensures Stable(m, j, t) {
      AssignmentMaskingIsStable(m, key, j, t);
    }
    RewriteTwice(m, false, text);
  }

  // ---------------------------------------------------------------- whole characters only

  lemma LowerIsAscii(b: Byte)
    ensures Lower(b) < 0x80 <==> b < 0x80
  {
  }

  lemma CutAfterKey(key: seq<Byte>, s: seq<Byte>, p: nat)
    requires key != [] && key[|key| - 1] < 0x80 && WellFormed(s) && Find(s, key) == Some(p)
    ensures WellFormed(s[..p + |key|]) && WellFormed(s[p + |key|..])
  {
    FindFromFindsFirst(s, key, 0);
    var last := p + |key| - 1;
    assert Lower(s[p + (|key| - 1)]) == key[|key| - 1];
    LowerIsAscii(s[last]);
    CutAroundAscii(s, last);
  }

  lemma ValueStartsBehindAscii(s: seq<Byte>, c: nat)
    requires c < |s| && Assigns(s[c])
    ensures var vs := ValueStart(s, Skip(s, c + 1, Space)); c < vs <= |s| && s[vs - 1] < 0x80
  {
    SkipSkips(s, c + 1, Space);
    var d := Skip(s, c + 1, Space);
    assert d == c + 1 || Space(s[d - 1]);
  }

  lemma ValueEndsBeforeAscii(s: seq<Byte>, vs: nat, d: nat)
    requires vs <= |s|
    ensures var ve := Skip(s, vs, InValue(QuoteAt(s, d))); ve < |s| ==> s[ve] < 0x80
  {
    SkipSkips(s, vs, InValue(QuoteAt(s, d)));
  }

  /** A value starts behind an ASCII byte, and ends before one or at the end of the string. */
  lemma ValueIsBetweenAscii(s: seq<Byte>, a: nat)
    requires a <= |s| && ValueRange(s, a).Some?
    ensures var (vs, ve) := ValueRange(s, a).value; s[vs - 1] < 0x80 && (ve < |s| ==> s[ve] < 0x80)
  {
    var c := Skip(s, a, SpaceOrQuote);
    var d := Skip(s, c + 1, Space);
    ValueStartsBehindAscii(s, c);
    ValueEndsBeforeAscii(s, ValueStart(s, d), d);
  }

  lemma CutAroundValue(s: seq<Byte>, a: nat)
    requires WellFormed(s) && a <= |s| && ValueRange(s, a).Some?
    ensures var (vs, ve) := ValueRange(s, a).value; WellFormed(s[..vs]) && WellFormed(s[ve..])
  {
    ValueIsBetweenAscii(s, a);
    var (vs, ve) := ValueRange(s, a).value;
    CutOutBetweenAscii(s, vs, ve);
  }

  lemma CutOutBetweenAscii(s: seq<Byte>, vs: nat, ve: nat)
    requires WellFormed(s) && 0 < vs <= ve <= |s| && s[vs - 1] < 0x80 && (ve < |s| ==> s[ve] < 0x80)
    ensures WellFormed(s[..vs]) && WellFormed(s[ve..])
  {
    CutAroundAscii(s, vs - 1);
    if ve < |s| {
      CutAroundAscii(s, ve);
    }
  }

  lemma AssignmentCutsWell(key: seq<Byte>, j: bool, t: seq<Byte>)
    requires key != [] && key[|key| - 1] < 0x80
    ensures CutsWell(AssignmentMasker(key, REDACTED), j, t)
  {
    if WellFormed(t) && Find(t, key).Some? {
      ActionCutsWell(key, j, t, Find(t, key).value);
    }
  }

  lemma ActionCutsWell(key: seq<Byte>, j: bool, t: seq<Byte>, p: nat)
    requires key != [] && key[|key| - 1] < 0x80 && WellFormed(t) && Find(t, key) == Some(p)
    ensures var a := AssignmentAction(key, j, t);
            && (a.Leave? ==> a.n <= |t| && WellFormed(t[..a.n]) && WellFormed(t[a.n..]))
            && (a.Redact? ==> a.from <= a.to <= |t| && WellFormed(t[..a.from]) && WellFormed(t[a.to..]))
  {
    CutAfterKey(key, t, p);
    if ValueRange(t, p + |key|).Some? {
      CutAroundValue(t, p + |key|);
    }
    ActionSplits(key, j, t, p, WellFormed);
  }

  /** Whatever is decided, the parts that are kept are those before and behind the key or the value. */
  lemma ActionSplits(key: seq<Byte>, j: bool, t: seq<Byte>, p: nat, good: seq<Byte> -> bool)
    requires key != [] && Find(t, key) == Some(p) && good(t[..p + |key|]) && good(t[p + |key|..])
    requires ValueRange(t, p + |key|).Some? ==>
               var (vs, ve) := ValueRange(t, p + |key|).value; good(t[..vs]) && good(t[ve..])
    ensures var a := AssignmentAction(key, j, t);
            && (a.Leave? ==> a.n <= |t| && good(t[..a.n]) && good(t[a.n..]))
            && (a.Redact? ==> a.from <= a.to <= |t| && good(t[..a.from]) && good(t[a.to..]))
  {
    ActionAt(key, j, t, p);
  }

  /** Masking an ASCII key keeps the text well-formed UTF-8: no cut falls inside a character. */
  lemma MaskAssignmentKeepsUtf8(text: seq<Byte>, key: seq<Byte>)
    requires key != [] && key[|key| - 1] < 0x80 && WellFormed(text)
    ensures WellFormed(Rewrite(AssignmentMasker(key, REDACTED), false, text))
  {
    var m := AssignmentMasker(key, REDACTED);
    forall j, t ensures CutsWell(m, j, t) {
      AssignmentCutsWell(key, j, t);
    }
    MarkerIsUtf8(REDACTED);
    RewriteKeepsUtf8(m, false, text);
  }

  lemma {:induction false} AsciiIsUtf8(s: seq<Byte>)
    requires forall i :: 0 <= i < |s| ==> s[i] < 0x80
    ensures WellFormed(s)
  {
    if s != [] {
      AsciiIsUtf8(s[1..]);
    }
  }

  lemma MarkerIsUtf8(marker: seq<Byte>)
    requires ProperMarker(marker)
    ensures WellFormed(marker)
  {
    AsciiIsUtf8(marker);
  }
}
