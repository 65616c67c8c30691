/** Well-formed UTF-8 byte strings and where they may be cut. */
module Utf8 {
  import opened Widths

  predicate Continuation(b: Byte) {
    0x80 <= b < 0xC0
  }

  /** Length of the well-formed character at the front of `s`, or 0 when there is none. */
  function CharLen(s: seq<Byte>): (n: nat)
    ensures n <= |s|
  {
    if |s| >= 1 && s[0] < 0x80 then 1
    else if |s| >= 2 && 0xC2 <= s[0] < 0xE0 && Continuation(s[1]) then 2
    else if |s| >= 3 && 0xE0 <= s[0] < 0xF0 && Continuation(s[1]) && Continuation(s[2])
            && (s[0] == 0xE0 ==> s[1] >= 0xA0) && (s[0] == 0xED ==> s[1] < 0xA0) then 3
    else if |s| >= 4 && 0xF0 <= s[0] < 0xF5 && Continuation(s[1]) && Continuation(s[2]) && Continuation(s[3])
            && (s[0] == 0xF0 ==> s[1] >= 0x90) && (s[0] == 0xF4 ==> s[1] < 0x90) then 4
    else 0
  }

  predicate WellFormed(s: seq<Byte>) {
    s == [] || (CharLen(s) > 0 && WellFormed(s[CharLen(s)..]))
  }

  /** The test `is_char_boundary` makes: an end of the string, or not a continuation byte. */
  predicate Boundary(s: seq<Byte>, i: nat)
    requires i <= |s|
  {
    i == 0 || i == |s| || !Continuation(s[i])
  }

  lemma CharLenOfPrefix(s: seq<Byte>, i: nat)
    requires CharLen(s) <= i <= |s| && CharLen(s) > 0
    ensures CharLen(s[..i]) == CharLen(s)
  {
  }

  lemma CharLenOfConcat(a: seq<Byte>, b: seq<Byte>)
    requires CharLen(a) > 0
    ensures CharLen(a + b) == CharLen(a)
  {
  }

  lemma {:induction false} Concat(a: seq<Byte>, b: seq<Byte>)
    requires WellFormed(a) && WellFormed(b)
    ensures WellFormed(a + b)
  {
    if a == [] {
      assert a + b == b;
    } else {
      var n := CharLen(a);
      CharLenOfConcat(a, b);
      assert (a + b)[n..] == a[n..] + b;
      Concat(a[n..], b);
    }
  }

  /** Cutting a well-formed string at a boundary gives two well-formed strings. */
  lemma {:induction false} CutAtBoundary(s: seq<Byte>, i: nat)
    requires WellFormed(s) && i <= |s| && Boundary(s, i)
    ensures WellFormed(s[..i]) && WellFormed(s[i..])
  {
    if i == 0 {
      assert s[0..] == s;
    } else if i == |s| {
      assert s[..i] == s;
    } else {
      var n := CharLen(s);
      assert n <= i;
      var rest := s[n..];
      CutAtBoundary(rest, i - n);
      CharLenOfPrefix(s, i);
      assert s[..i][n..] == rest[..i - n];
      assert s[i..] == rest[i - n..];
    }
  }

  /** Cutting it anywhere else leaves a prefix that is not well-formed. */
  lemma {:induction false} CutInsideCharacter(s: seq<Byte>, i: nat)
    requires WellFormed(s) && i <= |s| && !Boundary(s, i)
    ensures !WellFormed(s[..i])
  {
    var n := CharLen(s);
    if i < n {
      assert CharLen(s[..i]) == 0;
    } else {
      CharLenOfPrefix(s, i);
      assert s[..i][n..] == s[n..][..i - n];
      CutInsideCharacter(s[n..], i - n);
    }
  }

  /** On either side of an ASCII byte there is a boundary. */
  lemma CutAroundAscii(s: seq<Byte>, i: nat)
    requires WellFormed(s) && i < |s| && s[i] < 0x80
    ensures WellFormed(s[..i]) && WellFormed(s[i..]) && WellFormed(s[..i + 1]) && WellFormed(s[i + 1..])
  {
    CutAtBoundary(s, i);
    assert CharLen(s[i..]) == 1 && s[i..][1..] == s[i + 1..];
    assert s[i + 1..] == [] || !Continuation(s[i + 1..][0]);
    CutAtBoundary(s, i + 1);
  }

  /** The longest prefix of at most `maxBytes` bytes that does not cut a character. */
  method Prefix(s: seq<Byte>, maxBytes: nat) returns (r: seq<Byte>)
    requires WellFormed(s)
    ensures |r| <= maxBytes && r <= s && WellFormed(r)
    ensures forall e :: |r| < e <= maxBytes && e <= |s| ==> !WellFormed(s[..e])
  {
    if |s| <= maxBytes { return s; }
    var end := maxBytes;
    while end > 0 && !Boundary(s, end)
      invariant 0 <= end <= maxBytes
      invariant forall e :: end < e <= maxBytes ==> !WellFormed(s[..e])
    {
      CutInsideCharacter(s, end);
      end := end - 1;
    }
    CutAtBoundary(s, end);
    r := s[..end];
  }
}
