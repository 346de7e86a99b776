/** UTF-8 as section 3 of RFC 3629 defines it. */
module Utf8 {

  type byte = b: int | 0 <= b < 256

  predicate Tail(b: byte) {
    0x80 <= b <= 0xBF
  }

  /** Bytes of the character that `s` starts with, or 0 if it starts with none. */
  function CharLength(s: seq<byte>): (n: nat)
    ensures n <= 4 && n <= |s|
  {
    if s == [] then 0
    else if s[0] <= 0x7F then 1
    else if 0xC2 <= s[0] <= 0xDF then (if |s| >= 2 && Tail(s[1]) then 2 else 0)
    else if 0xE0 <= s[0] <= 0xEF then
      (if |s| >= 3 && Tail(s[1]) && Tail(s[2]) && (s[0] == 0xE0 ==> s[1] >= 0xA0) &&
        (s[0] == 0xED ==> s[1] <= 0x9F) then 3 else 0)
    else if 0xF0 <= s[0] <= 0xF4 then
      (if |s| >= 4 && Tail(s[1]) && Tail(s[2]) && Tail(s[3]) && (s[0] == 0xF0 ==> s[1] >= 0x90) &&
        (s[0] == 0xF4 ==> s[1] <= 0x8F) then 4 else 0)
    else 0
  }

  predicate Valid(s: seq<byte>)
    decreases |s|
  {
    s == [] || (CharLength(s) > 0 && Valid(s[CharLength(s)..]))
  }

  /** The characters of a valid text, each as its bytes. */
  function Chars(s: seq<byte>): (r: seq<seq<byte>>)
    requires Valid(s)
    ensures |r| <= |s|
    decreases |s|
  {
    if s == [] then [] else [s[..CharLength(s)]] + Chars(s[CharLength(s)..])
  }

  function Join(chars: seq<seq<byte>>): seq<byte> {
    if chars == [] then [] else chars[0] + Join(chars[1..])
  }

  /** What follows a character does not change where it ends. */
  lemma CharLengthIsLocal(s: seq<byte>, t: seq<byte>)
    requires CharLength(s) > 0
    ensures CharLength(s + t) == CharLength(s)
  {
  }

  lemma CharAlone(s: seq<byte>)
    requires CharLength(s) > 0
    ensures CharLength(s[..CharLength(s)]) == CharLength(s)
    ensures Valid(s[..CharLength(s)])
  {
    var first := s[..CharLength(s)];
    assert forall i | 0 <= i < |first| :: first[i] == s[i];
    assert first[CharLength(s)..] == [];
  }

  /** A text split at a character boundary: both parts are valid exactly when the
      whole is. */
  lemma {:induction false} ValidInTwoParts(a: seq<byte>, b: seq<byte>)
    requires Valid(a)
    ensures Valid(a + b) <==> Valid(b)
    decreases |a|
  {
    hide CharLength;
    if a == [] {
      assert a + b == b;
    } else {
      var n := CharLength(a);
      CharLengthIsLocal(a, b);
      ValidInTwoParts(a[n..], b);
      assert (a + b)[n..] == a[n..] + b;
    }
  }

  lemma {:induction false} JoinOfChars(s: seq<byte>)
    requires Valid(s)
    ensures Join(Chars(s)) == s
    decreases |s|
  {
    hide CharLength;
    if s != [] {
      JoinOfChars(s[CharLength(s)..]);
      assert Chars(s)[1..] == Chars(s[CharLength(s)..]);
    }
  }

  /** The first k characters are the bytes up to a boundary. */
  lemma {:induction false} FirstChars(s: seq<byte>, k: nat)
    requires Valid(s) && k <= |Chars(s)|
    ensures var front := Join(Chars(s)[..k]);
      front <= s && Valid(front) && Valid(s[|front|..]) && |front| >= k && (k == |Chars(s)| <==> front == s)
    decreases |s|
  {
    hide CharLength;
    if k > 0 {
      var n := CharLength(s);
      FirstChars(s[n..], k - 1);
      assert Chars(s)[..k][1..] == Chars(s[n..])[..k - 1];
      var rest := Join(Chars(s[n..])[..k - 1]);
      CharAlone(s);
      ValidInTwoParts(s[..n], rest);
      assert s[|s[..n] + rest|..] == s[n..][|rest|..];
    }
  }

  /** No character starts inside another: where some text can be read from, the whole
      rest can be read. */
  lemma {:induction false} ReadableFrom(s: seq<byte>, offset: nat, end: nat)
    requires Valid(s) && offset < end <= |s| && Valid(s[offset..end])
    ensures Valid(s[offset..])
    decreases |s|
  {
    hide CharLength;
    var n := CharLength(s);
    if offset == 0 {
      assert s[offset..] == s;
    } else if offset < n {
      TailStartsNothing(s, offset, s[offset..end]);
    } else {
      assert s[n..][offset - n..end - n] == s[offset..end];
      ReadableFrom(s[n..], offset - n, end - n);
      assert s[n..][offset - n..] == s[offset..];
    }
  }

  lemma TailStartsNothing(s: seq<byte>, k: nat, t: seq<byte>)
    requires 0 < k < CharLength(s) && t != [] && t[0] == s[k]
    ensures !Valid(t)
  {
  }
}
