/** UTF-8 text as bytes: well-formed sequences after section 4 of RFC 3629. */
module Utf8 {
  import opened Basics

  predicate Continuation(b: Byte) {
    0x80 <= b < 0xC0
  }

  /** A byte that can begin a character. */
  predicate RuneStart(b: Byte) {
    !Continuation(b)
  }

  /** The length the first byte announces, 0 if no character begins with it. */
  function Announced(b: Byte): nat {
    if b < 0x80 then 1
    else if 0xC2 <= b <= 0xDF then 2
    else if 0xE0 <= b <= 0xEF then 3
    else if 0xF0 <= b <= 0xF4 then 4
    else 0
  }

  /** No overlong forms, no surrogates, nothing above U+10FFFF. */
  predicate SecondOk(first: Byte, second: Byte) {
    && Continuation(second)
    && (first == 0xE0 ==> second >= 0xA0)
    && (first == 0xED ==> second <= 0x9F)
    && (first == 0xF0 ==> second >= 0x90)
    && (first == 0xF4 ==> second <= 0x8F)
  }

  /** The length of the character at the start, 0 if there is none or it is malformed. */
  function Width(s: seq<Byte>): (w: nat)
    ensures w <= 4 && w <= |s|
    ensures w > 0 ==> RuneStart(s[0])
    ensures forall i :: 0 < i < w ==> Continuation(s[i])
  {
    if s == [] then 0
    else
      var n := Announced(s[0]);
      if n == 0 || n > |s| then 0
      else if n > 1 && !SecondOk(s[0], s[1]) then 0
      else if n > 2 && !Continuation(s[2]) then 0
      else if n > 3 && !Continuation(s[3]) then 0
      else n
  }

  predicate ValidText(s: seq<Byte>) {
    s == [] || (Width(s) > 0 && ValidText(s[Width(s)..]))
  }

  function Low(b: Byte, size: nat): nat
    requires size > 0
  {
    var n: nat := b;
    n % size
  }

  /** The character's number. */
  function Rune(s: seq<Byte>): nat
    requires Width(s) > 0
  {
    if Width(s) == 1 then s[0]
    else if Width(s) == 2 then Low(s[0], 0x20) * 0x40 + Low(s[1], 0x40)
    else if Width(s) == 3 then Low(s[0], 0x10) * 0x1000 + Low(s[1], 0x40) * 0x40 + Low(s[2], 0x40)
    else Low(s[0], 0x08) * 0x40000 + Low(s[1], 0x40) * 0x1000 + Low(s[2], 0x40) * 0x40 + Low(s[3], 0x40)
  }

  predicate IsSpace(r: nat) {
    || 0x09 <= r <= 0x0D || r == 0x20 || r == 0x85 || r == 0xA0 || r == 0x1680
    || 0x2000 <= r <= 0x200A || r == 0x2028 || r == 0x2029 || r == 0x202F || r == 0x205F || r == 0x3000
  }

  // ---------------------------------------------------------------- cutting text

  /** The first character is decided by its own bytes. */
  lemma WidthOfPrefix(s: seq<Byte>, k: nat)
    requires k <= |s|
    ensures k >= Width(s) > 0 ==> Width(s[..k]) == Width(s)
    ensures k >= 4 ==> Width(s[..k]) == Width(s)
    ensures Width(s[..k]) > 0 ==> Width(s) == Width(s[..k])
  {
  }

  lemma {:induction false} ValidConcat(a: seq<Byte>, b: seq<Byte>)
    requires ValidText(a) && ValidText(b)
    ensures ValidText(a + b)
  {
    if a == [] {
      assert a + b == b;
    } else {
      var w := Width(a);
      assert (a + b)[..|a|] == a && (a + b)[w..] == a[w..] + b;
      WidthOfPrefix(a + b, |a|);
      ValidConcat(a[w..], b);
    }
  }

  lemma {:induction false} ValidRest(a: seq<Byte>, b: seq<Byte>)
    requires ValidText(a + b) && ValidText(a)
    ensures ValidText(b)
  {
    if a == [] {
      assert a + b == b;
    } else {
      var w := Width(a);
      assert (a + b)[..|a|] == a && (a + b)[w..] == a[w..] + b;
      WidthOfPrefix(a + b, |a|);
      ValidRest(a[w..], b);
    }
  }

  /** Valid text may be cut before any byte that begins a character. */
  lemma {:induction false} ValidCut(s: seq<Byte>, i: nat)
    requires ValidText(s) && i <= |s| && (i < |s| ==> RuneStart(s[i]))
    ensures ValidText(s[..i]) && ValidText(s[i..])
    decreases |s|
  {
    if i == 0 {
      assert s[0..] == s;
    } else {
      var w := Width(s);
      assert i >= w;
      ValidCut(s[w..], i - w);
      assert s[w..][..i - w] == s[..i][w..] && s[w..][i - w..] == s[i..];
      WidthOfPrefix(s, i);
    }
  }

  /** Valid text begins with a character start. */
  lemma StartsRune(s: seq<Byte>)
    requires ValidText(s) && s != []
    ensures RuneStart(s[0]) && 1 <= Width(s) <= |s|
    ensures Width(s) < |s| ==> RuneStart(s[Width(s)])
  {
    var rest := s[Width(s)..];
    if rest != [] { assert ValidText(rest) && Width(rest) > 0 && rest[0] == s[Width(s)]; }
  }
}
