/**
 The loop shared by the two secret maskers: search the rest of the string, then either leave what
 was found, or replace a range by the marker, and go on behind it.
 */
module Redactor {
  import opened Widths
  import opened Utf8

  /** What to do with the rest of the string: nothing more, leave `n` bytes, or redact `[from, to)`. */
  datatype Action = Stop | Leave(n: nat) | Redact(from: nat, to: nat)

  /**
   A masker: its rule decides from the rest of the string and from whether the byte before it is
   in the masker's class of bytes.
   */
  datatype Masker = Masker(rule: (bool, seq<Byte>) -> Action, inClass: Byte -> bool, marker: seq<Byte>)
  {
    predicate AfterMarker()
      requires marker != []
    {
      inClass(marker[|marker| - 1])
    }
  }

  function Decision(m: Masker, joined: bool, s: seq<Byte>): Action {
    m.rule(joined, s)
  }

  predicate Fits(a: Action, s: seq<Byte>) {
    match a
    case Stop => true
    case Leave(n) => 0 < n <= |s|
    case Redact(from, to) => from <= to <= |s| && 0 < to
  }

  function Shift(a: Action, k: nat): Action {
    match a
    case Stop => Stop
    case Leave(n) => Leave(k + n)
    case Redact(from, to) => Redact(k + from, k + to)
  }

  /** The masked form of the rest of the string. An action that does not fit counts as `Stop`. */
  function Rewrite(m: Masker, joined: bool, s: seq<Byte>): seq<Byte>
    requires m.marker != []
    decreases |s|
  {
    var a := m.rule(joined, s);
    if a.Stop? || !Fits(a, s) then s
    else if a.Leave? then s[..a.n] + Rewrite(m, m.inClass(s[a.n - 1]), s[a.n..])
    else s[..a.from] + m.marker + Rewrite(m, m.AfterMarker(), s[a.to..])
  }

  predicate JoinedAt(m: Masker, value: seq<Byte>, i: nat)
    requires i <= |value|
  {
    i > 0 && m.inClass(value[i - 1])
  }

  /** The final string, when everything before `from` is settled. */
  function Settled(m: Masker, value: seq<Byte>, from: nat): seq<Byte>
    requires m.marker != [] && from <= |value|
  {
    value[..from] + Rewrite(m, JoinedAt(m, value, from), value[from..])
  }

  lemma SettledFromStart(m: Masker, value: seq<Byte>)
    requires m.marker != []
    ensures Settled(m, value, 0) == Rewrite(m, false, value)
  {
    assert value[0..] == value;
  }

  lemma StopStep(m: Masker, value: seq<Byte>, from: nat)
    requires m.marker != [] && from <= |value| && m.rule(JoinedAt(m, value, from), value[from..]) == Stop
    ensures Settled(m, value, from) == value
  {
    assert value[..from] + value[from..] == value;
  }

  lemma LeaveStep(m: Masker, value: seq<Byte>, from: nat, n: nat)
    requires m.marker != [] && from <= |value| && 0 < n <= |value| - from
    requires m.rule(JoinedAt(m, value, from), value[from..]) == Leave(n)
    ensures Settled(m, value, from) == Settled(m, value, from + n)
  {
    var rest := value[from..];
    assert value[..from + n] == value[..from] + rest[..n];
    assert value[from + n..] == rest[n..];
  }

  lemma SettledBefore(m: Masker, value: seq<Byte>, from: nat, vs: nat, ve: nat)
    requires m.marker != [] && from <= vs <= ve <= |value| && from < ve
    requires m.rule(JoinedAt(m, value, from), value[from..]) == Redact(vs - from, ve - from)
    ensures Settled(m, value, from) == value[..vs] + m.marker + Rewrite(m, m.AfterMarker(), value[ve..])
  {
    var rest := value[from..];
    assert rest[ve - from..] == value[ve..];
    assert value[..from] + rest[..vs - from] == value[..vs];
    Regroup(value[..from], rest[..vs - from], m.marker, Rewrite(m, m.AfterMarker(), value[ve..]));
  }

  lemma Regroup(a: seq<Byte>, b: seq<Byte>, c: seq<Byte>, d: seq<Byte>)
    ensures a + (b + c + d) == a + b + c + d
  {
  }

  lemma SettledAfter(m: Masker, head: seq<Byte>, tail: seq<Byte>)
    requires m.marker != []
    ensures Settled(m, head + m.marker + tail, |head| + |m.marker|) ==
            head + m.marker + Rewrite(m, m.AfterMarker(), tail)
  {
    var value, cut := head + m.marker + tail, |head| + |m.marker|;
    assert value[..cut] == head + m.marker && value[cut..] == tail;
  }

  /** Replacing a range in place settles the string up to the end of the marker. */
  lemma RedactStep(m: Masker, value: seq<Byte>, from: nat, vs: nat, ve: nat)
    requires m.marker != [] && from <= vs <= ve <= |value| && from < ve
    requires m.rule(JoinedAt(m, value, from), value[from..]) == Redact(vs - from, ve - from)
    ensures Settled(m, value[..vs] + m.marker + value[ve..], vs + |m.marker|) == Settled(m, value, from)
  {
    SettledBefore(m, value, from, vs, ve);
    SettledAfter(m, value[..vs], value[ve..]);
  }

  /** Carries out the decision taken at `from`, in place. */
  method Apply(value: seq<Byte>, from: nat, a: Action, marker: seq<Byte>, ghost m: Masker)
    returns (value': seq<Byte>, from': nat, more: bool)
    requires marker != [] && m.marker == marker && from <= |value|
    requires a == Shift(Decision(m, JoinedAt(m, value, from), value[from..]), from)
    requires Fits(Decision(m, JoinedAt(m, value, from), value[from..]), value[from..])
    ensures from' <= |value'| && Settled(m, value', from') == Settled(m, value, from)
    ensures more ==> |value'| - from' < |value| - from
    ensures !more ==> value' == Settled(m, value', from')
  {
    match a {
      case Stop =>
        StopStep(m, value, from);
        return value, from, false;
      case Leave(n) =>
        LeaveStep(m, value, from, n - from);
        return value, n, true;
      case Redact(vs, ve) =>
        RedactStep(m, value, from, vs, ve);
        return value[..vs] + marker + value[ve..], vs + |marker|, true;
    }
  }

  // ---------------------------------------------------------------- idempotence

  /** Rewriting what follows does not change the decision taken before it. */
  ghost predicate Stable(m: Masker, joined: bool, s: seq<Byte>)
    requires m.marker != []
  {
    var a := m.rule(joined, s);
    && Fits(a, s)
    && (a.Leave? ==> m.rule(joined, s[..a.n] + Rewrite(m, m.inClass(s[a.n - 1]), s[a.n..])) == a)
    && (a.Redact? ==>
          var rest := Rewrite(m, m.AfterMarker(), s[a.to..]);
          Rewrite(m, joined, s[..a.from] + m.marker + rest) ==
          s[..a.from] + m.marker + Rewrite(m, m.AfterMarker(), rest))
  }

  lemma RewriteLeft(m: Masker, joined: bool, head: seq<Byte>, rest: seq<Byte>)
    requires m.marker != [] && head != [] && m.rule(joined, head + rest) == Leave(|head|)
    ensures Rewrite(m, joined, head + rest) == head + Rewrite(m, m.inClass(head[|head| - 1]), rest)
  {
    assert (head + rest)[..|head|] == head && (head + rest)[|head|..] == rest;
  }

  lemma {:induction false} RewriteTwice(m: Masker, joined: bool, s: seq<Byte>)
    requires m.marker != [] && forall j, t :: Stable(m, j, t)
    ensures Rewrite(m, joined, Rewrite(m, joined, s)) == Rewrite(m, joined, s)
    decreases |s|
  {
    assert Stable(m, joined, s);
    var a := m.rule(joined, s);
    if a.Leave? {
      RewriteTwice(m, m.inClass(s[a.n - 1]), s[a.n..]);
      RewriteLeft(m, joined, s[..a.n], Rewrite(m, m.inClass(s[a.n - 1]), s[a.n..]));
    } else if a.Redact? {
      RewriteTwice(m, m.AfterMarker(), s[a.to..]);
    }
  }

  /** When the rule looks past `x` and decides as it would on `t` alone, `x` is simply kept. */
  lemma RewriteBehind(m: Masker, joined: bool, x: seq<Byte>, j: bool, t: seq<Byte>)
    requires m.marker != [] && Fits(m.rule(j, t), t)
    requires m.rule(joined, x + t) == Shift(m.rule(j, t), |x|)
    ensures Rewrite(m, joined, x + t) == x + Rewrite(m, j, t)
  {
    var a := m.rule(j, t);
    if a.Leave? {
      LeaveBehind(m, joined, x, j, t);
    } else if a.Redact? {
      RedactBehind(m, joined, x, j, t);
    }
  }

  lemma LeaveBehind(m: Masker, joined: bool, x: seq<Byte>, j: bool, t: seq<Byte>)
    requires m.marker != [] && Fits(m.rule(j, t), t) && m.rule(j, t).Leave?
    requires m.rule(joined, x + t) == Shift(m.rule(j, t), |x|)
    ensures Rewrite(m, joined, x + t) == x + Rewrite(m, j, t)
  {
    var n := m.rule(j, t).n;
    var head, rest := t[..n], t[n..];
    assert t == head + rest;
    Associate(x, head, rest);
    RewriteLeft(m, joined, x + head, rest);
    RewriteLeft(m, j, head, rest);
    Associate(x, head, Rewrite(m, m.inClass(head[n - 1]), rest));
  }

  lemma Associate(a: seq<Byte>, b: seq<Byte>, c: seq<Byte>)
    ensures a + b + c == a + (b + c)
  {
  }

  lemma RewriteRedacted(m: Masker, joined: bool, head: seq<Byte>, mid: seq<Byte>, rest: seq<Byte>)
    requires m.marker != [] && head + mid != []
    requires m.rule(joined, head + mid + rest) == Redact(|head|, |head| + |mid|)
    ensures Rewrite(m, joined, head + mid + rest) == head + m.marker + Rewrite(m, m.AfterMarker(), rest)
  {
    var s, k := head + mid + rest, |head| + |mid|;
    assert s[..|head|] == head && s[k..] == rest;
  }

  lemma RedactBehind(m: Masker, joined: bool, x: seq<Byte>, j: bool, t: seq<Byte>)
    requires m.marker != [] && Fits(m.rule(j, t), t) && m.rule(j, t).Redact?
    requires m.rule(joined, x + t) == Shift(m.rule(j, t), |x|)
    ensures Rewrite(m, joined, x + t) == x + Rewrite(m, j, t)
  {
    var a := m.rule(j, t);
    var head, mid, rest := t[..a.from], t[a.from..a.to], t[a.to..];
    assert t == head + mid + rest;
    Regroup(x, head, mid, rest);
    RewriteRedacted(m, joined, x + head, mid, rest);
    RewriteRedacted(m, j, head, mid, rest);
    Regroup(x, head, m.marker, Rewrite(m, m.AfterMarker(), rest));
  }

  // ---------------------------------------------------------------- whole characters only

  /** The rule never cuts a character. */
  ghost predicate CutsWell(m: Masker, joined: bool, s: seq<Byte>) {
    var a := m.rule(joined, s);
    WellFormed(s) && Fits(a, s) ==>
      && (a.Leave? ==> WellFormed(s[..a.n]) && WellFormed(s[a.n..]))
      && (a.Redact? ==> WellFormed(s[..a.from]) && WellFormed(s[a.to..]))
  }

  lemma {:induction false} RewriteKeepsUtf8(m: Masker, joined: bool, s: seq<Byte>)
    requires m.marker != [] && WellFormed(m.marker) && WellFormed(s) && forall j, t :: CutsWell(m, j, t)
    ensures WellFormed(Rewrite(m, joined, s))
    decreases |s|
  {
    assert CutsWell(m, joined, s);
    var a := m.rule(joined, s);
    if !Fits(a, s) {
    } else if a.Leave? {
      RewriteKeepsUtf8(m, m.inClass(s[a.n - 1]), s[a.n..]);
      Concat(s[..a.n], Rewrite(m, m.inClass(s[a.n - 1]), s[a.n..]));
    } else if a.Redact? {
      RewriteKeepsUtf8(m, m.AfterMarker(), s[a.to..]);
      Concat(s[..a.from], m.marker);
      Concat(s[..a.from] + m.marker, Rewrite(m, m.AfterMarker(), s[a.to..]));
    }
  }
}
