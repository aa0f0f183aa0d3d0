/** Texts in requests: how the daemon reads back what the client writes. */
module Texts {
  import opened Bytes
  import opened Options
  import opened Fcb
  import opened FsOps

  /** Characters that go through a request as one byte each and do not end the text. */
  predicate IsText(s: string) { forall c :: c in s ==> 0 < c as int < 0x80 }

  lemma {:induction false} UntilNulOf(bs: seq<byte>, rest: seq<byte>)
    requires 0 !in bs
    ensures UntilNul(bs + [0] + rest) == bs && AfterNul(bs + [0] + rest) == Some(rest)
  {
    var all := bs + [0] + rest;
    if bs == [] {
      assert all[1..] == rest;
    } else {
      assert all[1..] == bs[1..] + [0] + rest;
      UntilNulOf(bs[1..], rest);
    }
  }

  lemma {:induction false} NoNul(bs: seq<byte>)
    requires 0 !in bs
    ensures UntilNul(bs) == bs && AfterNul(bs).None?
  {
    if bs != [] { NoNul(bs[1..]); }
  }

  lemma AsciiDecodes(s: string)
    requires IsText(s)
    ensures 0 !in Ascii(s) && DecodeAscii(Ascii(s)) == s
  {
    var bs := Ascii(s);
    forall i | 0 <= i < |bs|
      ensures 0 < bs[i] < 0x80 && bs[i] as char == s[i]
    {
      assert s[i] in s;
    }
  }

  /** A text and a NUL are read back as the text, whatever follows. */
  lemma TextDecodes(s: string, rest: seq<byte>)
    requires IsText(s)
    ensures var q := Ascii(s) + [0] + rest; DecodeAscii(UntilNul(q)) == s && AfterNul(q) == Some(rest)
  {
    AsciiDecodes(s);
    UntilNulOf(Ascii(s), rest);
  }

  /** A text that fills the request is read back too. */
  lemma OpenTextDecodes(s: string)
    requires IsText(s)
    ensures DecodeAscii(UntilNul(Ascii(s))) == s && AfterNul(Ascii(s)).None?
  {
    AsciiDecodes(s);
    NoNul(Ascii(s));
  }

  /** The path of a request is the text behind its first byte. */
  lemma PathIsRead(lead: byte, s: string, rest: seq<byte>)
    requires IsText(s)
    ensures DosPath([lead] + Ascii(s) + [0] + rest) == s && DosPath([lead] + Ascii(s)) == s
  {
    hide Ascii, DecodeAscii, UntilNul;
    TextDecodes(s, rest);
    OpenTextDecodes(s);
    assert ([lead] + Ascii(s) + [0] + rest)[1..] == Ascii(s) + [0] + rest;
    assert ([lead] + Ascii(s))[1..] == Ascii(s);
  }

  /** Any other byte is read as the replacement character. */
  lemma OthersAreReplaced(bs: seq<byte>, i: nat)
    requires i < |bs| && bs[i] >= 0x80
    ensures DecodeAscii(bs)[i] == '\U{FFFD}'
  {
  }

  lemma AsciiJoins(a: string, b: string)
    requires IsText(a) && IsText(b)
    ensures IsText(a + b) && Ascii(a + b) == Ascii(a) + Ascii(b)
  {
    forall c | c in a + b ensures 0 < c as int < 0x80 { assert c in a || c in b; }
  }
}
