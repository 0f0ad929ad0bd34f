/** The mail object a session assembles. */
module Mails {
  import opened Basics

  datatype AuthMode = NoAuth | Always | RequireTls

  datatype Mail = Mail(sender: string, recipients: seq<string>, data: Bytes) {

    function SetSender(address: string): Mail
    {
      this.(sender := NormalizeAddress(address))
    }

    function AddRecipient(address: string): Mail
    {
      this.(recipients := recipients + [NormalizeAddress(address)])
    }

    function AppendData(line: Bytes): Mail
    {
      this.(data := data + line)
    }
  }

  const EMPTY_MAIL := Mail("", [], [])

  // Without an opening bracket, if there is one.
  function StripOpen(s: string): string
  {
    if s != "" && s[0] == '<' then s[1..] else s
  }

  // Without a closing bracket, if there is one.
  function StripClose(s: string): string
  {
    if s != "" && Last(s) == '>' then Init(s) else s
  }

  function NormalizeAddress(address: string): string
  {
    Trim(StripClose(StripOpen(Trim(address))))
  }

  // An address is left as it is exactly if it has no whitespace and no bracket at its ends: no "<"
  // in front, no ">" behind.
  lemma NormalizeUnchangedIff(address: string)
    ensures NormalizeAddress(address) == address <==>
            Trimmed(address) && (address == "" || (address[0] != '<' && Last(address) != '>'))
  {
    var t := Trim(address);
    var m := StripClose(StripOpen(t));
    TrimShrinks(address);
    TrimShrinks(m);
    if t != "" && (t[0] == '<' || Last(t) == '>') {
      assert |NormalizeAddress(address)| <= |m| < |t|;
    }
  }

  // An address without whitespace and without brackets at its ends.
  predicate Bare(address: string)
  {
    Trimmed(address) && (address == "" || (address[0] != '<' && Last(address) != '>'))
  }

  // However an address is written, in brackets or not, with whitespace inside and outside of them, it
  // is normalized to the bare address.
  lemma NormalizeBracketed(a: string, u: string, v: string, w: string, x: string)
    requires Bare(a) && Blank(u) && Blank(v) && Blank(w) && Blank(x)
    ensures NormalizeAddress(u + "<" + v + a + w + ">" + x) == a
  {
    hide Trim, Blank, IsWhitespace;
    var inner := "<" + v + a + w + ">";
    assert u + "<" + v + a + w + ">" + x == u + inner + x;
    BracketsAreNotBlank();
    TrimOf(u, inner, x);
    assert StripOpen(inner) == v + a + w + ">";
    assert StripClose(v + a + w + ">") == v + a + w;
    TrimOf(v, a, w);
  }

  lemma NormalizeOpened(a: string, u: string, v: string, x: string)
    requires Bare(a) && Blank(u) && Blank(v) && Blank(x)
    ensures NormalizeAddress(u + "<" + v + a + x) == a
  {
    hide Trim, IsWhitespace;
    var written := u + "<" + v + a + x;
    BracketsAreNotBlank();
    if a == "" {
      assert written == u + "<" + (v + x);
      TrimOf(u, "<", v + x);
      assert StripOpen("<") == "" && Trim("" + "" + "") == "" by {
        TrimOf("", "", "");
      }
      assert "" + "" + "" == "";
    } else {
      assert written == u + ("<" + v + a) + x;
      assert Last("<" + v + a) == Last(a);
      TrimOf(u, "<" + v + a, x);
      assert StripOpen("<" + v + a) == v + a && StripClose(v + a) == v + a;
      TrimOf(v, a, "");
      assert v + a + "" == v + a;
    }
  }

  lemma NormalizeClosed(a: string, u: string, w: string, x: string)
    requires Bare(a) && Blank(u) && Blank(w) && Blank(x)
    ensures NormalizeAddress(u + a + w + ">" + x) == a
  {
    hide Trim, IsWhitespace;
    var written := u + a + w + ">" + x;
    BracketsAreNotBlank();
    if a == "" {
      assert written == (u + w) + ">" + x;
      TrimOf(u + w, ">", x);
      assert StripOpen(">") == ">" && StripClose(">") == "" && Trim("" + "" + "") == "" by {
        TrimOf("", "", "");
      }
      assert "" + "" + "" == "";
    } else {
      assert written == u + (a + w + ">") + x;
      TrimOf(u, a + w + ">", x);
      assert StripOpen(a + w + ">") == a + w + ">" && StripClose(a + w + ">") == a + w;
      TrimOf("", a, w);
      assert "" + a + w == a + w;
    }
  }

  lemma NormalizeUnbracketed(a: string, u: string, x: string)
    requires Bare(a) && Blank(u) && Blank(x)
    ensures NormalizeAddress(u + a + x) == a
  {
    hide Trim, IsWhitespace;
    TrimOf(u, a, x);
    TrimOf("", a, "");
    assert "" + a + "" == a;
  }

  lemma BracketsAreNotBlank()
    ensures !IsWhitespace('<') && !IsWhitespace('>')
  {
    assert '<' as int == 60 && '>' as int == 62;
  }

  // Normalising is meant to be a canonical form, but one pair of brackets is taken off at each
  // application: a second one changes nothing exactly if no bracket was left.
  lemma NormalizeIsStableIff(address: string)
    ensures var n := NormalizeAddress(address);
            NormalizeAddress(n) == n <==> (n == "" || (n[0] != '<' && Last(n) != '>'))
  {
    NormalizeUnchangedIff(NormalizeAddress(address));
  }

  lemma NormalizeDoubleBrackets()
    ensures NormalizeAddress("<<a>>") == "<a>"
    ensures NormalizeAddress("<a>") == "a"
  {
    assert Trimmed("<<a>>") && Trimmed("<a>") && Trimmed("a");
    assert StripOpen("<<a>>") == "<a>>" && Last("<a>>") == '>' && Init("<a>>") == "<a>";
    assert StripOpen("<a>") == "a>" && Last("a>") == '>' && Init("a>") == "a";
  }

  lemma TrimShrinks(s: string)
    ensures |Trim(s)| <= |s|
    decreases |s|
  {
  }
}
