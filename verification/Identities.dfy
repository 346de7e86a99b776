/** The keys that name checkpoints, and why comparing the rendered strings is the
    same as comparing what they name. */
module Identities {

  /** What an identity key or an action id names. `Foreign` is any other text. */
  datatype Identity =
    | Blank
    | OfDecision(no: int)
    | OfAction(no: int, index: int)
    | OfFinal(no: int)
    | OfSteering(no: int, messageId: string)
    | Foreign(text: string)

  function Digit(d: nat): char
    requires d < 10
  {
    "0123456789"[d]
  }

  predicate IsDigit(c: char) {
    '0' <= c <= '9'
  }

  function DigitValue(c: char): nat
    requires IsDigit(c)
  {
    c as int - '0' as int
  }

  /** Decimal digits of a natural number, without leading zeros. */
  function Itoa(n: nat): (s: string)
    ensures |s| >= 1
    ensures forall i | 0 <= i < |s| :: IsDigit(s[i])
  {
    if n < 10 then [Digit(n)] else Itoa(n / 10) + [Digit(n % 10)]
  }

  function Atoi(s: string): nat
    requires forall i | 0 <= i < |s| :: IsDigit(s[i])
  {
    if s == [] then 0 else 10 * Atoi(s[..|s| - 1]) + DigitValue(s[|s| - 1])
  }

  lemma {:induction false} AtoiOfItoa(n: nat)
    ensures Atoi(Itoa(n)) == n
  {
    if n >= 10 {
      AtoiOfItoa(n / 10);
      assert Itoa(n)[..|Itoa(n)| - 1] == Itoa(n / 10);
    }
  }

  lemma ItoaInjective(m: nat, n: nat)
    requires Itoa(m) == Itoa(n)
    ensures m == n
  {
    AtoiOfItoa(m);
    AtoiOfItoa(n);
  }

  /** Steering message ids: 1 to 120 letters, digits, dots, underscores, colons
      and dashes. No slash among them. */
  predicate IsMessageId(id: string) {
    1 <= |id| <= 120 && forall i | 0 <= i < |id| :: MessageIdChar(id[i])
  }

  predicate MessageIdChar(c: char) {
    'a' <= c <= 'z' || 'A' <= c <= 'Z' || IsDigit(c) || c == '.' || c == '_' || c == ':' || c == '-'
  }

  /** Identities a valid checkpoint can carry. */
  predicate Genuine(id: Identity) {
    match id
    case Blank => false
    case OfDecision(no) => no >= 1
    case OfAction(no, index) => no >= 1 && index >= 0
    case OfFinal(no) => no >= 1
    case OfSteering(no, messageId) => no >= 1 && IsMessageId(messageId)
    case Foreign(_) => false
  }

  function Suffix(id: Identity): string
    requires Genuine(id)
  {
    match id
    case OfDecision(_) => ""
    case OfAction(_, index) => "/action:" + Itoa(index)
    case OfFinal(_) => "/final"
    case OfSteering(_, messageId) => "/steer:" + messageId
  }

  /** The stored key, such as `decision:3/action:0`. */
  function Render(id: Identity): string
    requires Genuine(id)
  {
    "decision:" + (Itoa(id.no) + Suffix(id))
  }

  /** The text before the first slash. */
  function BeforeSlash(s: string): string {
    if s == "" || s[0] == '/' then "" else [s[0]] + BeforeSlash(s[1..])
  }

  lemma {:induction false} BeforeSlashOfConcat(a: string, x: string)
    requires '/' !in a
    requires x == "" || x[0] == '/'
    ensures BeforeSlash(a + x) == a
  {
    if a == "" {
      assert a + x == x;
    } else {
      BeforeSlashOfConcat(a[1..], x);
      assert (a + x)[1..] == a[1..] + x;
    }
  }

  lemma CancelPrefix(p: string, x: string, y: string)
    requires p + x == p + y
    ensures x == y
  {
    assert x == (p + x)[|p|..];
    assert y == (p + y)[|p|..];
  }

  /** The character after the slash tells the four kinds apart. */
  lemma SuffixTag(id: Identity)
    requires Genuine(id)
    ensures Suffix(id) == "" <==> id.OfDecision?
    ensures Suffix(id) != "" ==> |Suffix(id)| > 1 && Suffix(id)[0] == '/'
    ensures id.OfAction? <==> |Suffix(id)| > 1 && Suffix(id)[1] == 'a'
    ensures id.OfFinal? <==> |Suffix(id)| > 1 && Suffix(id)[1] == 'f'
    ensures id.OfSteering? <==> |Suffix(id)| > 1 && Suffix(id)[1] == 's'
  {
  }

  lemma SuffixNames(a: Identity, b: Identity)
    requires Genuine(a) && Genuine(b) && a.no == b.no
    requires Suffix(a) == Suffix(b)
    ensures a == b
  {
    SuffixTag(a);
    SuffixTag(b);
    if a.OfAction? {
      CancelPrefix("/action:", Itoa(a.index), Itoa(b.index));
      ItoaInjective(a.index, b.index);
    } else if a.OfSteering? {
      CancelPrefix("/steer:", a.messageId, b.messageId);
    }
  }

  /** Distinct identities have distinct keys. */
  lemma RenderInjective(a: Identity, b: Identity)
    requires Genuine(a) && Genuine(b)
    requires Render(a) == Render(b)
    ensures a == b
  {
    CancelPrefix("decision:", Itoa(a.no) + Suffix(a), Itoa(b.no) + Suffix(b));
    SuffixTag(a);
    SuffixTag(b);
    BeforeSlashOfConcat(Itoa(a.no), Suffix(a));
    BeforeSlashOfConcat(Itoa(b.no), Suffix(b));
    CancelPrefix(Itoa(a.no), Suffix(a), Suffix(b));
    ItoaInjective(a.no, b.no);
    SuffixNames(a, b);
  }
}
