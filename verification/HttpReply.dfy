/** Printing a length: the decimal notation that both reply writers produce. */
module Numerals {

  function Digit(d: nat): char
    requires d < 10
  {
    '0' + d as char
  }

  function DigitValue(c: char): nat { if '0' <= c <= '9' then (c - '0') as nat else 0 }

  function Decimal(n: nat): string { if n < 10 then [Digit(n)] else Decimal(n / 10) + [Digit(n % 10)] }

  /** The number a string of digits stands for. */
  function Value(s: string): nat { if s == [] then 0 else 10 * Value(s[..|s| - 1]) + DigitValue(s[|s| - 1]) }

  predicate IsDigits(s: string) { forall i :: 0 <= i < |s| ==> '0' <= s[i] <= '9' }

  /** Digits, without a leading zero that could be left out. */
  predicate Canonical(s: string) { s != [] && IsDigits(s) && (|s| > 1 ==> s[0] != '0') }

  lemma {:induction false} DecimalRoundTrip(n: nat)
    ensures Value(Decimal(n)) == n && Canonical(Decimal(n)) && (n > 0 ==> Decimal(n)[0] != '0')
  {
    if n < 10 {
      assert Decimal(n)[..0] == [];
    } else {
      DecimalRoundTrip(n / 10);
      assert Decimal(n)[..|Decimal(n)| - 1] == Decimal(n / 10);
    }
  }

  /** It is the only canonical notation. */
  lemma {:induction false} DecimalUnique(s: string)
    requires Canonical(s)
    ensures Decimal(Value(s)) == s
  {
    var init, c := s[..|s| - 1], s[|s| - 1];
    assert s == init + [c];
    if init != [] {
      DecimalUnique(init);
      LeadingDigit(init);
      TenTimes(Value(init), DigitValue(c));
      LastDigit(c);
    }
  }

  lemma TenTimes(v: nat, d: nat)
    requires d < 10
    ensures (10 * v + d) / 10 == v && (10 * v + d) % 10 == d
  {}

  lemma LastDigit(c: char)
    requires '0' <= c <= '9'
    ensures DigitValue(c) < 10 && Digit(DigitValue(c)) == c
  {}

  lemma {:induction false} LeadingDigit(s: string)
    requires s != [] && IsDigits(s) && s[0] != '0'
    ensures Value(s) > 0
  {
    if |s| > 1 {
      LeadingDigit(s[..|s| - 1]);
    }
  }

  function Pow10(k: nat): nat { if k == 0 then 1 else 10 * Pow10(k - 1) }

  lemma {:induction false} DecimalLength(n: nat, k: nat)
    requires k > 0 && n < Pow10(k)
    ensures |Decimal(n)| <= k
  {
    if n >= 10 {
      DecimalLength(n / 10, k - 1);
    }
  }

  /** Twenty digits do for an unsigned long. */
  lemma UlongLength(n: nat)
    requires n < 0x1_0000_0000_0000_0000
    ensures |Decimal(n)| <= 20
  {
    assert Pow10(10) == 1_00_0000_0000;
    assert Pow10(20) == 1_00_0000_0000 * 1_00_0000_0000;
    DecimalLength(n, 20);
  }

  function Reversed(s: string): string { if s == [] then [] else Reversed(s[1..]) + [s[0]] }

  lemma {:induction false} ReversedAt(s: string, k: nat)
    requires k < |s|
    ensures |Reversed(s)| == |s| && Reversed(s)[k] == s[|s| - 1 - k]
  {
    if |s| > 1 {
      ReversedAt(s[1..], if k < |s| - 1 then k else 0);
    }
  }

  /** What the division loop has collected: the digits of `num` that are still to come follow
      those it has, backwards. */
  lemma DigitLoop(num: nat, got: string)
    requires num > 0
    ensures (if num / 10 > 0 then Decimal(num / 10) else []) + Reversed(got + [Digit(num % 10)]) == Decimal(num) + Reversed(got)
  {
    ReversedSnoc(got, Digit(num % 10));
    assert num < 10 ==> num / 10 == 0 && num % 10 == num;
  }

  function StillToCome(n: nat): string { if n > 0 then Decimal(n) else [] }

  lemma NothingYet(n: nat, got: string)
    requires n > 0 && got == []
    ensures StillToCome(n) + Reversed(got) == Decimal(n)
  {}

  lemma SomeDigits(n: nat, got: string)
    ensures |Decimal(n) + Reversed(got)| >= 1 + |got|
  {
    ReversedSize(got);
  }

  lemma ReversedSize(s: string)
    ensures |Reversed(s)| == |s|
  {
    if s != [] {
      ReversedAt(s, 0);
    }
  }

  lemma {:induction false} ReversedSnoc(s: string, c: char)
    ensures Reversed(s + [c]) == [c] + Reversed(s)
  {
    if s == [] {
      assert Reversed([c]) == [c];
    } else {
      ReversedSnoc(s[1..], c);
      assert (s + [c])[1..] == s[1..] + [c];
    }
  }
}

/** The reply with a page that miniweb's backend puts together, and its C strings. */
module PageReply {
  import opened Base
  import opened Numerals

  /** The characters before the first NUL. */
  function CString(s: string): string
    requires '\0' in s
  {
    if s[0] == '\0' then [] else [s[0]] + CString(s[1..])
  }

  lemma {:induction false} CStringAt(s: string, k: nat)
    requires k < |s| && s[k] == '\0' && forall i :: 0 <= i < k ==> s[i] != '\0'
    ensures CString(s) == s[..k]
  {
    if k > 0 {
      CStringAt(s[1..], k - 1);
      assert s[..k] == [s[0]] + s[1..][..k - 1];
    }
  }

  lemma {:induction false} CStringEnds(s: string)
    requires '\0' in s
    ensures |CString(s)| < |s| && s[|CString(s)|] == '\0' && CString(s) == s[..|CString(s)|]
    ensures '\0' !in CString(s)
  {
    if s[0] != '\0' {
      CStringEnds(s[1..]);
    }
  }

  /** ulong_to_str */
  method UlongToStr(dest: array<char>, num: nat)
    requires num < U64 && dest.Length >= 21
    modifies dest
    ensures '\0' in dest[..] && CString(dest[..]) == Decimal(num)
  {
    if num == 0 {
      dest[0] := '0';
      dest[1] := '\0';
      CStringAt(dest[..], 1);
      return;
    }
    var temp, n := DigitsBackwards(num);
    DecimalRoundTrip(num);
    CanonicalDigits(Decimal(num));
    CopyBackwards(dest, temp, n);
  }

  method DigitsBackwards(num: nat) returns (temp: array<char>, i: nat)
    requires 0 < num < U64
    ensures fresh(temp) && temp.Length == 21 && i <= 20 && Reversed(temp[..i]) == Decimal(num)
  {
    UlongLength(num);
    temp := new char[21];
    var n: nat := num;
    i := 0;
    NothingYet(num, temp[..i]);
    while n > 0
      invariant 0 <= i <= 20 && n <= num && StillToCome(n) + Reversed(temp[..i]) == Decimal(num)
      decreases n
    {
      DigitLoop(n, temp[..i]);
      SomeDigits(n, temp[..i]);
      temp[i] := Digit(n % 10);
      assert temp[..i + 1] == temp[..i] + [Digit(n % 10)];
      n := n / 10;
      i := i + 1;
    }
  }

  /** The last loop of ulong_to_str, and the NUL. */
  method CopyBackwards(dest: array<char>, temp: array<char>, n: nat)
    requires dest != temp && n <= temp.Length && n < dest.Length && '\0' !in Reversed(temp[..n])
    modifies dest
    ensures '\0' in dest[..] && CString(dest[..]) == Reversed(temp[..n])
  {
    var j, d := n - 1, 0;
    while j >= 0
      invariant -1 <= j < n && d == n - 1 - j
      invariant forall k :: 0 <= k < d ==> dest[k] == temp[n - 1 - k]
    {
      dest[d] := temp[j];
      d := d + 1;
      j := j - 1;
    }
    dest[d] := '\0';
    var s := Reversed(temp[..n]);
    ReversedSize(temp[..n]);
    forall k: nat | k < n ensures dest[..][k] == s[k] && s[k] in s {
      ReversedAt(temp[..n], k);
    }
    assert dest[..][..n] == s;
    CStringAt(dest[..], n);
  }

  /** One of strcat_four_strings' loops. */
  method Append(dest: array<char>, at: nat, str: string) returns (length: nat)
    requires '\0' in str && at + |CString(str)| <= dest.Length
    modifies dest
    ensures length == |CString(str)| && dest[..at + length] == old(dest[..at]) + CString(str)
  {
    CStringEnds(str);
    length := 0;
    while str[length] != '\0'
      invariant length <= |CString(str)|
      invariant dest[..at + length] == old(dest[..at]) + CString(str)[..length]
      decreases |CString(str)| - length
    {
      dest[at + length] := str[length];
      length := length + 1;
    }
  }

  /** strcat_four_strings */
  method StrcatFourStrings(dest: array<char>, str1: string, str2: string, str3: string, str4: string) returns (length: nat)
    requires '\0' in str1 && '\0' in str2 && '\0' in str3 && '\0' in str4
    requires |CString(str1) + CString(str2) + CString(str3) + CString(str4)| + 2 <= dest.Length
    modifies dest
    ensures length <= dest.Length && dest[..length] == CString(str1) + CString(str2) + CString(str3) + CString(str4) + "\n\n"
  {
    ghost var a, b, c, d := CString(str1), CString(str2), CString(str3), CString(str4);
    assert |a + b + c + d| == |a| + |b| + |c| + |d|;
    length := Append(dest, 0, str1);
    assert dest[..length] == a;
    var n := Append(dest, length, str2);
    length := length + n;
    assert dest[..length] == a + b;
    n := Append(dest, length, str3);
    length := length + n;
    assert dest[..length] == a + b + c;
    n := Append(dest, length, str4);
    length := length + n;
    assert dest[..length] == a + b + c + d;
    hide CString;
    dest[length] := '\n';
    dest[length + 1] := '\n';
    length := length + 2;
    assert dest[..length - 2] == a + b + c + d;
    assert dest[..length] == dest[..length - 2] + [dest[length - 2]] + [dest[length - 1]];
  }

  // ---------------------------------------------------------------- the reply

  const STATUS: string := "HTTP/1.1 200 OK\n"
  const OTHER: string := "Connection: close\nContent-Type: text/html\n"
  const LENGTH: string := "Content-Length: "
  const REGION_SIZE: nat := 4096

  function Header(len: nat): string { STATUS + OTHER + LENGTH + Decimal(len) + "\n\n" }

  function Reply(page: string): string { Header(|page|) + page }

  lemma HeaderSize(len: nat)
    requires len < U64
    ensures |Header(len)| == 76 + |Decimal(len)| <= 96
  {
    UlongLength(len);
  }

  /** A page gets into the response region with its header exactly up to 4016 bytes; the file is
      read into a region of 4096. */
  lemma FitsIff(len: nat)
    requires len <= REGION_SIZE
    ensures |Header(len)| + len <= REGION_SIZE <==> len <= 4016
  {
    assert Pow10(3) == 1000 && Pow10(4) == 10000;
    DecimalLength(len, 4);
    if len >= 1000 {
      assert |Decimal(len)| == 1 + |Decimal(len / 10)| == 2 + |Decimal(len / 10 / 10)| == 3 + |Decimal(len / 10 / 10 / 10)|;
    }
  }

  lemma Literals()
    ensures CString(STATUS + "\0") == STATUS && CString(OTHER + "\0") == OTHER && CString(LENGTH + "\0") == LENGTH
    ensures |STATUS| + |OTHER| + |LENGTH| == 74
  {
    CStringAt(STATUS + "\0", |STATUS|);
    CStringAt(OTHER + "\0", |OTHER|);
    CStringAt(LENGTH + "\0", |LENGTH|);
  }

  /** request_handle_200: the reply is written from the base of the response region on, and its length
      put in the metadata. It gets past the end of the region exactly when the page is longer than
      4016 bytes, and then what follows the region is overwritten. */
  method Handle200(page: array<char>, len: nat, memory: array<char>, base: nat) returns (socketLen: nat)
    requires len <= page.Length && len <= REGION_SIZE && page != memory
    requires base + |Reply(page[..len])| <= memory.Length
    modifies memory
    ensures socketLen == |Reply(page[..len])| && (socketLen <= REGION_SIZE <==> len <= 4016)
    ensures memory[..] == old(memory[..base]) + Reply(page[..len]) + old(memory[base + socketLen..])
  {
    HeaderSize(len);
    FitsIff(len);
    hide STATUS, OTHER, LENGTH, CString, Decimal;
    var buffer := new char[256];
    var size := FillHeader(buffer, len);
    socketLen := size + len;
    hide Header;
    ghost var was := memory[..];
    Memcpy(memory, base, buffer, size);
    ghost var mid := memory[..];
    Memcpy(memory, base + size, page, len);
    TwoCopies(was, mid, memory[..], base, buffer[..size], page[..len]);
  }

  lemma TwoCopies(was: string, mid: string, now: string, base: nat, a: string, b: string)
    requires base + |a| + |b| <= |was| == |mid| == |now|
    requires mid[..base + |a|] == was[..base] + a && mid[base + |a|..] == was[base + |a|..]
    requires now[..base + |a| + |b|] == mid[..base + |a|] + b && now[base + |a| + |b|..] == mid[base + |a| + |b|..]
    ensures now == was[..base] + (a + b) + was[base + |a + b|..]
  {
    var n := base + |a| + |b|;
    assert mid[n..] == mid[base + |a|..][|b|..] && was[n..] == was[base + |a|..][|b|..];
    assert now == now[..n] + now[n..];
  }

  method FillHeader(buffer: array<char>, len: nat) returns (size: nat)
    requires buffer.Length == 256 && len <= 4096
    modifies buffer
    ensures size == |Header(len)| <= 96 && buffer[..size] == Header(len)
  {
    HeaderSize(len);
    Literals();
    hide STATUS, OTHER, LENGTH, CString, Decimal;
    var numChar := new char[21];
    UlongToStr(numChar, len);
    size := StrcatFourStrings(buffer, STATUS + "\0", OTHER + "\0", LENGTH + "\0", numChar[..]);
  }

  /** simple_memcpy */
  method Memcpy(dest: array<char>, at: nat, src: array<char>, n: nat)
    requires n <= src.Length && at + n <= dest.Length && dest != src
    modifies dest
    ensures dest[..at + n] == old(dest[..at]) + src[..n] && dest[at + n..] == old(dest[at + n..])
  {
    var i := 0;
    while i < n
      invariant i <= n && dest[..at + i] == old(dest[..at]) + src[..i] && dest[at + i..] == old(dest[at + i..])
    {
      dest[at + i] := src[i];
      i := i + 1;
    }
  }

  // ---------------------------------------------------------------- what a client makes of it

  predicate EmptyLineAt(s: string, i: nat) { i + 1 < |s| && s[i] == '\n' && s[i + 1] == '\n' }

  /** The part after the first empty line. */
  function Body(s: string): string {
    if |s| < 2 then [] else if EmptyLineAt(s, 0) then s[2..] else Body(s[1..])
  }

  /** The part of a line up to its end. */
  function Line(s: string): string { if s == [] || s[0] == '\n' then [] else [s[0]] + Line(s[1..]) }

  lemma {:induction false} BodySkips(s: string, n: nat)
    requires n + 1 < |s| && forall i: nat :: i < n ==> !EmptyLineAt(s, i)
    ensures Body(s) == Body(s[n..])
  {
    if n > 0 {
      assert !EmptyLineAt(s, 0);
      forall i: nat | i < n - 1 ensures !EmptyLineAt(s[1..], i) {
        assert !EmptyLineAt(s, i + 1);
      }
      BodySkips(s[1..], n - 1);
      assert s[1..][n - 1..] == s[n..];
    } else {
      assert s[n..] == s;
    }
  }

  lemma {:induction false} LineStops(a: string, b: string)
    requires '\n' !in a && b != [] && b[0] == '\n'
    ensures Line(a + b) == a
  {
    if a != [] {
      assert (a + b)[1..] == a[1..] + b;
      LineStops(a[1..], b);
    } else {
      assert a + b == b;
    }
  }

  /** A client that splits the reply at the first empty line finds the page, and the number it
      reads after "Content-Length: " is the length of the page. */
  lemma ReplyRoundTrip(page: string)
    ensures Body(Reply(page)) == page
    ensures STATUS + OTHER + LENGTH <= Reply(page)
    ensures Value(Line(Reply(page)[|STATUS + OTHER + LENGTH|..])) == |page|
  {
    hide Decimal, Canonical, Value, Line, Body;
    DecimalRoundTrip(|page|);
    var head, digits := STATUS + OTHER + LENGTH, Decimal(|page|);
    FirstEmptyLine(head, digits, page);
    FindsBody(head, digits, page);
    FindsLine(head, digits, page);
    assert Reply(page) == head + digits + ("\n\n" + page);
  }

  lemma FindsBody(head: string, digits: string, page: string)
    requires forall i: nat :: i < |head| + |digits| ==> !EmptyLineAt(head + digits + ("\n\n" + page), i)
    ensures Body(head + digits + ("\n\n" + page)) == page
  {
    hide Body, EmptyLineAt;
    var s, n := head + digits + ("\n\n" + page), |head| + |digits|;
    BodySkips(s, n);
    assert s[n..] == "\n\n" + page;
    EndsInBody(page);
  }

  lemma EndsInBody(page: string)
    ensures Body("\n\n" + page) == page
  {
    var end := "\n\n" + page;
    assert EmptyLineAt(end, 0) && end[2..] == page;
  }

  lemma FindsLine(head: string, digits: string, page: string)
    requires Canonical(digits)
    ensures Line((head + digits + ("\n\n" + page))[|head|..]) == digits
  {
    var end := "\n\n" + page;
    assert (head + digits + end)[|head|..] == digits + end;
    CanonicalDigits(digits);
    LineStops(digits, end);
  }

  lemma CanonicalDigits(s: string)
    requires Canonical(s)
    ensures IsDigits(s) && '\n' !in s && '\0' !in s
  {}

  /** No line of the header is empty. */
  lemma FirstEmptyLine(head: string, digits: string, page: string)
    requires head == STATUS + OTHER + LENGTH && Canonical(digits)
    ensures forall i: nat :: i < |head| + |digits| ==> !EmptyLineAt(head + digits + ("\n\n" + page), i)
  {
    var s := head + digits + ("\n\n" + page);
    forall i: nat | i < |head| + |digits| ensures !EmptyLineAt(s, i) {
      if i < |head| {
        NoEmptyLine(head, i);
        assert s[i] == head[i] && (i + 1 < |head| ==> s[i + 1] == head[i + 1]);
      } else {
        assert s[i] == digits[i - |head|];
      }
    }
  }

  lemma NoEmptyLine(head: string, i: nat)
    requires head == STATUS + OTHER + LENGTH && i < |head|
    ensures head[i] == '\n' ==> i + 1 < |head| && head[i + 1] != '\n'
  {}
}
