/** Well-formed UTF-8 texts as byte sequences (table 3-7 of the Unicode Standard). */
module Utf8 {
  import opened Search

  newtype Byte = x: int | 0 <= x < 256
  type Text = seq<Byte>

  predicate IsContinuation(b: Byte) {
    0x80 <= b < 0xC0
  }

  /** The length of a character with this first byte, or 0. */
  function CharLength(b: Byte): nat {
    if b < 0x80 then 1
    else if 0xC2 <= b < 0xE0 then 2
    else if 0xE0 <= b < 0xF0 then 3
    else if 0xF0 <= b < 0xF5 then 4
    else 0
  }

  /** One encoded character: no overlong form, no surrogate, nothing beyond U+10FFFF. */
  predicate IsChar(c: Text) {
    && |c| > 0 && |c| == CharLength(c[0])
    && (forall i :: 1 <= i < |c| ==> IsContinuation(c[i]))
    && (c[0] == 0xE0 ==> c[1] >= 0xA0) && (c[0] == 0xED ==> c[1] < 0xA0)
    && (c[0] == 0xF0 ==> c[1] >= 0x90) && (c[0] == 0xF4 ==> c[1] < 0x90)
  }

  predicate IsUtf8(s: Text)
    decreases |s|
  {
    |s| == 0
    || (var m := CharLength(s[0]);
        0 < m <= |s| && IsChar(s[..m]) && IsUtf8(s[m..]))
  }

  /** A character ends or starts at `i`. */
  predicate Boundary(s: Text, i: nat) {
    i == |s| || (i < |s| && !IsContinuation(s[i]))
  }

  lemma FirstByte(s: Text)
    requires IsUtf8(s) && |s| > 0
    ensures !IsContinuation(s[0]) && IsChar(s[..CharLength(s[0])]) && 0 < CharLength(s[0]) <= |s|
  {
  }

  /** No boundary lies inside the first character, and one is at its end. */
  lemma FirstCharEnds(s: Text)
    requires IsUtf8(s) && |s| > 0
    ensures Boundary(s, CharLength(s[0])) && forall j :: 0 < j < CharLength(s[0]) ==> !Boundary(s, j)
  {
    var m := CharLength(s[0]);
    assert forall j :: 0 < j < m ==> s[j] == s[..m][j];
    if m < |s| {
      FirstByte(s[m..]);
    }
  }

  /** A text can be split at every boundary. */
  lemma {:induction false} SplitAt(s: Text, i: nat)
    requires IsUtf8(s) && i <= |s| && Boundary(s, i)
    ensures IsUtf8(s[..i]) && IsUtf8(s[i..])
    decreases |s|
  {
    if i == 0 {
      assert s[0..] == s;
    } else {
      var m := CharLength(s[0]);
      FirstCharEnds(s);
      SplitAt(s[m..], i - m);
      assert s[m..][i - m..] == s[i..] && s[m..][..i - m] == s[..i][m..] && s[..i][..m] == s[..m];
    }
  }

  lemma {:induction false} Join(a: Text, b: Text)
    requires IsUtf8(a) && IsUtf8(b)
    ensures IsUtf8(a + b)
    decreases |a|
  {
    if |a| == 0 {
      assert a + b == b;
    } else {
      var m := CharLength(a[0]);
      Join(a[m..], b);
      assert (a + b)[m..] == a[m..] + b && (a + b)[..m] == a[..m];
      Cons(a + b, m);
    }
  }

  lemma Cons(s: Text, m: nat)
    requires 0 < m <= |s| && m == CharLength(s[0]) && IsChar(s[..m]) && IsUtf8(s[m..])
    ensures IsUtf8(s)
  {
  }

  lemma CharIsUtf8(c: Text)
    requires IsChar(c)
    ensures IsUtf8(c)
  {
    assert c[..|c|] == c && c[|c|..] == [];
  }

  /** What follows a well-formed prefix is well formed. */
  lemma {:induction false} AfterPrefix(t: Text, s: Text)
    requires IsUtf8(t) && IsUtf8(s) && t <= s
    ensures IsUtf8(s[|t|..]) && Boundary(s, |t|)
    decreases |t|
  {
    if |t| == 0 {
      assert s[0..] == s;
    } else {
      var m := CharLength(t[0]);
      AfterPrefix(t[m..], s[m..]);
      assert s[m..][|t| - m..] == s[|t|..];
    }
  }

  /** The character that starts at a boundary: the next boundary is at its end. */
  lemma CharAt(s: Text, i: nat)
    requires IsUtf8(s) && i < |s| && Boundary(s, i)
    ensures var m := CharLength(s[i]);
            && 0 < m && i + m <= |s| && IsChar(s[i..i + m]) && Boundary(s, i + m)
            && forall j :: i < j < i + m ==> !Boundary(s, j)
  {
    SplitAt(s, i);
    FirstOfRest(s, i, s[i..]);
    var m := CharLength(s[i]);
    BoundaryShift(s, i, i + m);
    forall j | i < j < i + m ensures !Boundary(s, j) {
      BoundaryShift(s, i, j);
    }
  }

  lemma FirstOfRest(s: Text, i: nat, rest: Text)
    requires i < |s| && rest == s[i..] && IsUtf8(rest)
    ensures var m := CharLength(s[i]);
            && rest[0] == s[i] && 0 < m <= |rest| && IsChar(s[i..i + m])
            && Boundary(rest, m) && forall j :: 0 < j < m ==> !Boundary(rest, j)
  {
    FirstByte(rest);
    FirstCharEnds(rest);
    assert rest[..CharLength(s[i])] == s[i..i + CharLength(s[i])];
  }

  lemma BoundaryShift(s: Text, i: nat, j: nat)
    requires i <= j <= |s|
    ensures Boundary(s, j) <==> Boundary(s[i..], j - i)
  {
  }

  /** An occurrence of a text in a text starts and ends at boundaries. */
  lemma OccurrenceAligned(text: Text, t: Text, p: nat)
    requires IsUtf8(text) && IsUtf8(t) && |t| > 0 && OccursAt(text, t, p)
    ensures Boundary(text, p) && Boundary(text, p + |t|)
  {
    FirstByte(t);
    OccursPointwise(text, t, p, 0);
    SplitAt(text, p);
    assert t <= text[p..];
    AfterPrefix(t, text[p..]);
  }
}
