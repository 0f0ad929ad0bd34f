/** Option and result types, octets, and the text helpers of the Rust standard library
    that the mail proxy relies on. */
module Basics {

  datatype Option<+T> = None | Some(value: T)

  datatype Result<+T, +E> = Ok(value: T) | Err(error: E)

  type byte = b: int | 0 <= b < 256

  type Bytes = seq<byte>

  const NUL: byte := 0
  const LF: byte := 10
  const CR: byte := 13
  const SPACE: byte := 32
  const DOT: byte := 46
  const CRLF: Bytes := [CR, LF]

  // ----- sequences -----

  function Last<T>(s: seq<T>): T
    requires s != []
  {
    s[|s| - 1]
  }

  function Init<T>(s: seq<T>): seq<T>
    requires s != []
  {
    s[..|s| - 1]
  }

  lemma InitOfSnoc<T>(s: seq<T>, x: T)
    ensures Init(s + [x]) == s && Last(s + [x]) == x
  {
  }

  function Concat<T>(parts: seq<seq<T>>): seq<T>
  {
    if parts == [] then [] else parts[0] + Concat(parts[1..])
  }

  predicate StartsWith<T(==)>(s: seq<T>, prefix: seq<T>)
  {
    |prefix| <= |s| && s[..|prefix|] == prefix
  }

  predicate EndsWith<T(==)>(s: seq<T>, suffix: seq<T>)
  {
    |suffix| <= |s| && s[|s| - |suffix|..] == suffix
  }

  // Position of the first x in s, or |s| when there is none.
  function IndexOf<T(==)>(s: seq<T>, x: T): (n: nat)
    ensures n <= |s|
    ensures x !in s[..n]
    ensures n < |s| ==> s[n] == x
  {
    if s == [] || s[0] == x then 0 else
      var n := IndexOf(s[1..], x) + 1;
      assert s[..n] == [s[0]] + s[1..][..n - 1];
      n
  }

  lemma IndexOfUnique<T>(s: seq<T>, x: T, n: nat)
    requires n <= |s| && x !in s[..n]
    requires n < |s| ==> s[n] == x
    ensures IndexOf(s, x) == n
  {
    var m := IndexOf(s, x);
    if m < n || n < m {
      assert false;
    }
  }

  lemma IndexOfAtLeast<T>(s: seq<T>, x: T, n: nat)
    requires n <= |s| && x !in s[..n]
    ensures n <= IndexOf(s, x)
  {
  }

  // Without the CRLF or LF at the end, if there is one.
  function StripNewline(s: Bytes): Bytes
  {
    if EndsWith(s, CRLF) then s[..|s| - 2]
    else if EndsWith(s, [LF]) then s[..|s| - 1]
    else s
  }

  // ----- ASCII -----

  function UpperByte(b: byte): byte
  {
    if 97 <= b <= 122 then b - 32 else b
  }

  // Small ASCII letters made capital, every other byte as it is.
  function Upper(s: Bytes): (u: Bytes)
    ensures |u| == |s|
    ensures forall i :: 0 <= i < |s| ==> u[i] == UpperByte(s[i])
  {
    seq(|s|, i requires 0 <= i < |s| => UpperByte(s[i]))
  }

  // Space, tab, line feed, form feed and carriage return.
  predicate IsAsciiSpace(b: byte)
  {
    b == 32 || b == 9 || b == 10 || b == 12 || b == 13
  }

  // Without ASCII whitespace at either end.
  function TrimAscii(s: Bytes): Bytes
    decreases |s|
  {
    if s != [] && IsAsciiSpace(s[0]) then TrimAscii(s[1..])
    else if s != [] && IsAsciiSpace(Last(s)) then TrimAscii(Init(s))
    else s
  }

  // Bytes that agree in upper case are the same up to the case of a letter.
  lemma UpperByteIff(a: byte, b: byte)
    ensures UpperByte(a) == UpperByte(b) <==>
            a == b || (65 <= a <= 90 && b == a + 32) || (65 <= b <= 90 && a == b + 32)
    ensures 65 <= a <= 90 ==> UpperByte(a) == a && UpperByte(a + 32) == a
  {
  }

  // The same text up to the case of ASCII letters.
  predicate SameLetters(s: Bytes, t: Bytes)
  {
    |s| == |t| && forall i :: 0 <= i < |s| ==>
      s[i] == t[i] || (65 <= s[i] <= 90 && t[i] == s[i] + 32) || (65 <= t[i] <= 90 && s[i] == t[i] + 32)
  }

  lemma UpperIff(s: Bytes, t: Bytes)
    ensures Upper(s) == Upper(t) <==> SameLetters(s, t)
  {
    hide UpperByte;
    forall i | 0 <= i < |s| && i < |t|
      ensures UpperByte(s[i]) == UpperByte(t[i]) <==>
              s[i] == t[i] || (65 <= s[i] <= 90 && t[i] == s[i] + 32) || (65 <= t[i] <= 90 && s[i] == t[i] + 32)
    {
      UpperByteIff(s[i], t[i]);
    }
    if Upper(s) == Upper(t) {
      forall i | 0 <= i < |s|
        ensures UpperByte(s[i]) == UpperByte(t[i])
      {
        assert Upper(s)[i] == Upper(t)[i];
      }
    }
  }

  predicate AllSpaces(s: Bytes)
  {
    forall b <- s :: b in [9, 10, 12, 13, 32]
  }

  // No ASCII whitespace at either end.
  predicate Clean(s: Bytes)
  {
    s == [] || (s[0] !in [9, 10, 12, 13, 32] && Last(s) !in [9, 10, 12, 13, 32])
  }

  lemma {:induction false} TrimAsciiFront(pre: Bytes, s: Bytes)
    requires AllSpaces(pre)
    ensures TrimAscii(pre + s) == TrimAscii(s)
    decreases |pre|
  {
    if pre == [] {
      assert pre + s == s;
    } else {
      assert pre[0] in pre && (pre + s)[1..] == pre[1..] + s;
      TrimAsciiFront(pre[1..], s);
    }
  }

  lemma {:induction false} TrimAsciiBack(s: Bytes, post: Bytes)
    requires s != [] && AllSpaces(post) && Clean(s)
    ensures TrimAscii(s + post) == s
    decreases |post|
  {
    if post == [] {
      assert s + post == s;
    } else {
      assert Last(post) in post && Init(s + post) == s + Init(post);
      TrimAsciiBack(s, Init(post));
    }
  }

  // Trimming takes off the whitespace around a text, all of it and nothing else.
  lemma TrimAsciiOf(pre: Bytes, s: Bytes, post: Bytes)
    requires AllSpaces(pre) && AllSpaces(post) && Clean(s)
    ensures TrimAscii(pre + s + post) == s
  {
    hide TrimAscii;
    if s == [] {
      TrimAsciiFront(pre + post, []);
      assert pre + s + post == (pre + post) + [];
      TrimNothing();
    } else {
      TrimAsciiFront(pre, s + post);
      assert pre + s + post == pre + (s + post);
      TrimAsciiBack(s, post);
    }
  }

  lemma TrimNothing()
    ensures TrimAscii([]) == [] && Trim("") == ""
  {
  }

  // Every text has such a core.
  lemma {:induction false} CoreOf(s: Bytes) returns (pre: Bytes, core: Bytes, post: Bytes)
    ensures s == pre + core + post && AllSpaces(pre) && AllSpaces(post) && Clean(core)
    ensures TrimAscii(s) == core
    decreases |s|
  {
    if s != [] && IsAsciiSpace(s[0]) {
      pre, core, post := CoreOf(s[1..]);
      pre := [s[0]] + pre;
    } else if s != [] && IsAsciiSpace(Last(s)) {
      pre, core, post := CoreOf(Init(s));
      assert s == Init(s) + [Last(s)];
      post := post + [Last(s)];
    } else {
      pre, core, post := [], s, [];
    }
  }

  // ----- text -----

  // The characters with the Unicode White_Space property.
  predicate IsWhitespace(c: char)
  {
    var n := c as int;
    9 <= n <= 13 || n == 0x20 || n == 0x85 || n == 0xA0 || n == 0x1680 || 0x2000 <= n <= 0x200A ||
    n == 0x2028 || n == 0x2029 || n == 0x202F || n == 0x205F || n == 0x3000
  }

  predicate Trimmed(s: string)
  {
    s == "" || (!IsWhitespace(s[0]) && !IsWhitespace(Last(s)))
  }

  // Without whitespace at either end.
  function Trim(s: string): (t: string)
    ensures Trimmed(t)
    ensures Trimmed(s) ==> t == s
    decreases |s|
  {
    if s != "" && IsWhitespace(s[0]) then Trim(s[1..])
    else if s != "" && IsWhitespace(Last(s)) then Trim(Init(s))
    else s
  }

  predicate Blank(s: string)
  {
    forall c <- s :: IsWhitespace(c)
  }

  lemma {:induction false} TrimFront(u: string, s: string)
    requires Blank(u)
    ensures Trim(u + s) == Trim(s)
    decreases |u|
  {
    hide IsWhitespace;
    if u == "" {
      assert u + s == s;
    } else {
      assert u[0] in u && (u + s)[1..] == u[1..] + s;
      TrimFront(u[1..], s);
    }
  }

  lemma {:induction false} TrimBack(s: string, v: string)
    requires s != "" && Blank(v) && Trimmed(s)
    ensures Trim(s + v) == s
    decreases |v|
  {
    hide IsWhitespace;
    if v == "" {
      assert s + v == s;
    } else {
      assert Last(v) in v && Init(s + v) == s + Init(v);
      TrimBack(s, Init(v));
    }
  }

  // Trimming takes off the whitespace around a text, all of it and nothing else.
  lemma TrimOf(u: string, s: string, v: string)
    requires Blank(u) && Blank(v) && Trimmed(s)
    ensures Trim(u + s + v) == s
  {
    hide Trim, IsWhitespace;
    if s == "" {
      TrimFront(u + v, "");
      assert u + s + v == (u + v) + "";
      TrimNothing();
    } else {
      TrimFront(u, s + v);
      assert u + s + v == u + (s + v);
      TrimBack(s, v);
    }
  }

  lemma SpacesAreBlank()
    ensures Blank(" ") && Blank("\t") && Blank("\r\n") && !Blank("a") && !Blank("<") && !Blank("@")
  {
    assert ' ' as int == 0x20 && '\t' as int == 9 && '\r' as int == 13 && '\n' as int == 10;
    assert "a"[0] as int == 97 && "<"[0] as int == 60 && "@"[0] as int == 64;
    assert "a"[0] in "a" && "<"[0] in "<" && "@"[0] in "@";
  }

  function Digit(d: nat): char
    requires d < 10
  {
    ['0', '1', '2', '3', '4', '5', '6', '7', '8', '9'][d]
  }

  function Decimal(n: nat): (s: string)
    ensures s != "" && '\n' !in s
    ensures n <= 9 ==> |s| == 1
    ensures 10 <= n <= 99 ==> |s| == 2
    ensures 100 <= n <= 999 ==> |s| == 3
  {
    if n < 10 then [Digit(n)] else Decimal(n / 10) + [Digit(n % 10)]
  }
}
