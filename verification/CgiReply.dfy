/** The bytes of a 64-bit word, and ORing one in. */
module WordBytes {
  type Octets = seq<bv8>

  function Byte0(w: bv64): bv8 { (w & 0xff) as bv8 }

  function Byte1(w: bv64): bv8 { ((w >> 8) & 0xff) as bv8 }

  function Byte2(w: bv64): bv8 { ((w >> 16) & 0xff) as bv8 }

  function Byte3(w: bv64): bv8 { ((w >> 24) & 0xff) as bv8 }

  function Byte4(w: bv64): bv8 { ((w >> 32) & 0xff) as bv8 }

  function Byte5(w: bv64): bv8 { ((w >> 40) & 0xff) as bv8 }

  function Byte6(w: bv64): bv8 { ((w >> 48) & 0xff) as bv8 }

  function Byte7(w: bv64): bv8 { ((w >> 56) & 0xff) as bv8 }

  function Or(a: bv8, b: bv8): bv8 { a | b }

  /** Little-endian; byte i is (w >> (i * 8)) & 0xff. */
  function BytesOf(w: bv64): (s: Octets)
    ensures |s| == 8
  {
    [Byte0(w), Byte1(w), Byte2(w), Byte3(w), Byte4(w), Byte5(w), Byte6(w), Byte7(w)]
  }

  /** ch << (i * 8) */
  function Shl(ch: bv8, i: nat): bv64
    requires i < 8
  {
    match i
    case 0 => ch as bv64
    case 1 => (ch as bv64) << 8
    case 2 => (ch as bv64) << 16
    case 3 => (ch as bv64) << 24
    case 4 => (ch as bv64) << 32
    case 5 => (ch as bv64) << 40
    case 6 => (ch as bv64) << 48
    case 7 => (ch as bv64) << 56
  }

  function OrWord(a: bv64, b: bv64): bv64 { a | b }

  /** w | (ch << (i * 8)) */
  function OrIn(w: bv64, ch: bv8, i: nat): bv64
    requires i < 8
  {
    OrWord(w, Shl(ch, i))
  }

  function PutByte(s: Octets, i: nat, ch: bv8): Octets
    requires i < |s|
  {
    s[i := Or(s[i], ch)]
  }

  /** Of the word shifted every byte but one is zero. */
  lemma ShlBytes(ch: bv8, i: nat)
    requires i < 8
    ensures Byte0(Shl(ch, i)) == (if i == 0 then ch else 0) && Byte1(Shl(ch, i)) == (if i == 1 then ch else 0)
    ensures Byte2(Shl(ch, i)) == (if i == 2 then ch else 0) && Byte3(Shl(ch, i)) == (if i == 3 then ch else 0)
    ensures Byte4(Shl(ch, i)) == (if i == 4 then ch else 0) && Byte5(Shl(ch, i)) == (if i == 5 then ch else 0)
    ensures Byte6(Shl(ch, i)) == (if i == 6 then ch else 0) && Byte7(Shl(ch, i)) == (if i == 7 then ch else 0)
  {}

  lemma Or0(a: bv64, b: bv64)
    ensures Byte0(OrWord(a, b)) == Or(Byte0(a), Byte0(b))
  {}

  lemma Or1(a: bv64, b: bv64)
    ensures Byte1(OrWord(a, b)) == Or(Byte1(a), Byte1(b))
  {}

  lemma Or2(a: bv64, b: bv64)
    ensures Byte2(OrWord(a, b)) == Or(Byte2(a), Byte2(b))
  {}

  lemma Or3(a: bv64, b: bv64)
    ensures Byte3(OrWord(a, b)) == Or(Byte3(a), Byte3(b))
  {}

  lemma Or4(a: bv64, b: bv64)
    ensures Byte4(OrWord(a, b)) == Or(Byte4(a), Byte4(b))
  {}

  lemma Or5(a: bv64, b: bv64)
    ensures Byte5(OrWord(a, b)) == Or(Byte5(a), Byte5(b))
  {}

  lemma Or6(a: bv64, b: bv64)
    ensures Byte6(OrWord(a, b)) == Or(Byte6(a), Byte6(b))
  {}

  lemma Or7(a: bv64, b: bv64)
    ensures Byte7(OrWord(a, b)) == Or(Byte7(a), Byte7(b))
  {}

  lemma OrNothing(a: bv8)
    ensures Or(a, 0) == a
  {}

  function OrAll(s: Octets, t: Octets): Octets
    requires |s| == |t|
  {
    seq(|s|, i requires 0 <= i < |s| => Or(s[i], t[i]))
  }

  lemma OrAllOfEight(s: Octets, t: Octets)
    requires |s| == 8 && |t| == 8
    ensures OrAll(s, t)
      == [Or(s[0], t[0]), Or(s[1], t[1]), Or(s[2], t[2]), Or(s[3], t[3]), Or(s[4], t[4]), Or(s[5], t[5]), Or(s[6], t[6]), Or(s[7], t[7])]
  {
    hide Or;
  }

  lemma OrWordBytes(a: bv64, b: bv64)
    ensures BytesOf(OrWord(a, b)) == OrAll(BytesOf(a), BytesOf(b))
  {
    hide Byte0, Byte1, Byte2, Byte3, Byte4, Byte5, Byte6, Byte7, Or, OrWord, OrAll;
    OrAllOfEight(BytesOf(a), BytesOf(b));
    Or0(a, b);
    Or1(a, b);
    Or2(a, b);
    Or3(a, b);
    Or4(a, b);
    Or5(a, b);
    Or6(a, b);
    Or7(a, b);
  }

  lemma ShlWordBytes(ch: bv8, i: nat, j: nat)
    requires i < 8 && j < 8
    ensures BytesOf(Shl(ch, i))[j] == if j == i then ch else 0
  {
    hide Byte0, Byte1, Byte2, Byte3, Byte4, Byte5, Byte6, Byte7, Shl;
    ShlBytes(ch, i);
  }

  /** ORing a byte in changes that byte of the word and no other. */
  lemma OrInBytes(w: bv64, ch: bv8, i: nat)
    requires i < 8
    ensures BytesOf(OrIn(w, ch, i)) == PutByte(BytesOf(w), i, ch)
  {
    hide BytesOf, Or, OrWord, Shl;
    OrWordBytes(w, Shl(ch, i));
    forall j | 0 <= j < 8 ensures BytesOf(OrIn(w, ch, i))[j] == PutByte(BytesOf(w), i, ch)[j] {
      ShlWordBytes(ch, i, j);
      OrNothing(BytesOf(w)[j]);
    }
  }

  lemma ZeroWord()
    ensures forall i :: 0 <= i < 8 ==> BytesOf(0)[i] == 0
  {}

  lemma OverZero(s: Octets, i: nat, ch: bv8)
    requires i < |s| && s[i] == 0
    ensures PutByte(s, i, ch) == s[i := ch]
  {
    assert Or(s[i], ch) == ch;
  }
}

/** The reply of the CGI domain that registers a name. The domain only has 64-bit words: it takes
    the request apart, and puts the reply together, one byte of a word at a time. */
module CgiReply {
  import opened Numerals
  import opened WordBytes
  import PageReply

  function Octet(c: char): bv8 { ((c as int) % 256) as bv8 }

  function Text(s: string): Octets { seq(|s|, i requires 0 <= i < |s| => Octet(s[i])) }

  /** The bytes of memory, word by word. */
  function Bytes(words: seq<bv64>): Octets { if words == [] then [] else Bytes(words[..|words| - 1]) + BytesOf(words[|words| - 1]) }

  lemma {:induction false} BytesAt(words: seq<bv64>, outer: nat, inner: nat)
    requires outer < |words| && inner < 8
    ensures |Bytes(words)| == 8 * |words| && Bytes(words)[8 * outer + inner] == BytesOf(words[outer])[inner]
  {
    hide BytesOf;
    var init := words[..|words| - 1];
    if outer < |init| {
      BytesAt(init, outer, inner);
    } else if init != [] {
      BytesAt(init, 0, 0);
    }
  }

  lemma {:induction false} BytesPrefix(words: seq<bv64>, n: nat)
    requires n <= |words|
    ensures |Bytes(words[..n])| == 8 * n && Bytes(words[..n]) <= Bytes(words)
  {
    hide BytesOf;
    if n < |words| {
      var init := words[..|words| - 1];
      BytesPrefix(init, n);
      assert init[..n] == words[..n];
    } else {
      assert words[..n] == words;
      if n > 0 {
        BytesAt(words, 0, 0);
      }
    }
  }

  // ---------------------------------------------------------------- writing

  /** `response_region_ptr` and the offsets. */
  class Writer {
    const region: array<bv64>
    var responseSize: nat
    var outer: nat
    var inner: nat

    constructor (region: array<bv64>)
      ensures this.region == region && Valid() && Emitted() == [] && responseSize == 0
    {
      this.region := region;
      responseSize, outer, inner := 0, 0, 0;
    }

    ghost predicate Valid()
      reads this, region
    {
      && inner < 8 && outer <= region.Length && responseSize == 8 * outer + inner
      && (inner > 0 ==> outer < region.Length && forall j :: inner <= j < 8 ==> BytesOf(region[outer])[j] == 0)
    }

    /** What the first responseSize bytes of the region hold. */
    ghost function Emitted(): Octets
      reads this, region
      requires Valid()
    {
      Bytes(region[..outer]) + if inner > 0 then BytesOf(region[outer])[..inner] else []
    }

    lemma EmittedSize()
      requires Valid()
      ensures |Emitted()| == responseSize && Emitted() <= Bytes(region[..])
    {
      hide BytesOf, Bytes;
      var all := region[..];
      BytesPrefix(all, outer);
      assert all[..outer] == region[..outer];
      if inner > 0 {
        BytesPrefix(all, outer + 1);
        NextBytes(all, outer);
        assert Emitted() == (Bytes(all[..outer]) + BytesOf(all[outer]))[..responseSize];
      }
    }

    /** putchar_to_socket */
    method Putchar(ch: bv8)
      requires Valid() && outer < region.Length
      modifies this, region
      ensures Valid() && Emitted() == old(Emitted()) + [ch] && responseSize == old(responseSize) + 1
    {
      hide BytesOf, OrIn, Bytes, PutByte;
      ghost var before := Bytes(region[..outer]);
      ZeroWord();
      if inner == 0 {
        region[outer] := 0;
      }
      var current := region[outer];
      OrInBytes(current, ch, inner);
      OverZero(BytesOf(current), inner, ch);
      region[outer] := OrIn(current, ch, inner);
      assert region[..outer] == old(region[..outer]);
      NextBytes(region[..], outer);
      assert BytesOf(region[outer])[..inner + 1] == BytesOf(current)[..inner] + [ch];
      inner := inner + 1;
      responseSize := responseSize + 1;
      if inner == 8 {
        assert BytesOf(region[outer])[..8] == BytesOf(region[outer]);
        inner := 0;
        outer := outer + 1;
      }
    }

    lemma NextBytes(words: seq<bv64>, n: nat)
      requires n < |words|
      ensures Bytes(words[..n + 1]) == Bytes(words[..n]) + BytesOf(words[n])
    {
      assert words[..n + 1][..n] == words[..n];
    }

    /** A run of putchar_to_socket calls. */
    method PutOctets(s: Octets)
      requires Valid() && responseSize + |s| <= 8 * region.Length
      modifies this, region
      ensures Valid() && Emitted() == old(Emitted()) + s && responseSize == old(responseSize) + |s|
    {
      hide Valid, Emitted;
      var i := 0;
      while i < |s|
        invariant i <= |s| && Valid() && Emitted() == old(Emitted()) + s[..i] && responseSize == old(responseSize) + i
      {
        RoomLeft();
        Putchar(s[i]);
        i := i + 1;
      }
    }

    lemma RoomLeft()
      requires Valid() && responseSize < 8 * region.Length
      ensures outer < region.Length
    {}
  }

  // ---------------------------------------------------------------- the name

  const EQUALS: bv8 := 0x3d
  const AMPERSAND: bv8 := 0x26

  /** The first place at or after `from` where c stands. */
  function FirstFrom(b: Octets, from: nat, c: bv8): nat
    requires from <= |b|
    decreases |b| - from
  {
    if from < |b| && b[from] != c then FirstFrom(b, from + 1, c) else from
  }

  lemma {:induction false} FirstFromIs(b: Octets, from: nat, c: bv8)
    requires from <= |b|
    ensures var r := FirstFrom(b, from, c);
      && from <= r <= |b| && (r < |b| ==> b[r] == c) && (forall i :: from <= i < r ==> b[i] != c)
    decreases |b| - from
  {
    if from < |b| && b[from] != c {
      FirstFromIs(b, from + 1, c);
    }
  }

  function NameStart(b: Octets): nat { FirstFrom(b, 0, EQUALS) }

  const NAME_SIZE: nat := 16

  /** What the scan for the name comes to: the name, or memory past the end of the request, or past
      the end of the buffer for the name. */
  datatype Scan = Found(name: Octets) | PastRequest | PastName

  /** The name stands between the first '=' and the next '&'. */
  function ScanOf(b: Octets): Scan {
    FirstFromIs(b, 0, EQUALS);
    var p := NameStart(b);
    if p == |b| then PastRequest
    else
      FirstFromIs(b, p + 1, AMPERSAND);
      var q := FirstFrom(b, p + 1, AMPERSAND);
      if q - p - 1 > NAME_SIZE then PastName
      else if q == |b| then PastRequest
      else Found(b[p + 1..q])
  }

  /** A request that puts a name of at most 16 bytes between the first '=' and the next '&' is
      understood, and nothing else is. */
  lemma FoundIff(b: Octets, name: Octets)
    ensures ScanOf(b) == Found(name) <==>
      |name| <= NAME_SIZE && AMPERSAND !in name
      && exists before: Octets, after: Octets :: EQUALS !in before && b == before + [EQUALS] + name + [AMPERSAND] + after
  {
    FirstFromIs(b, 0, EQUALS);
    var p := NameStart(b);
    if ScanOf(b) == Found(name) {
      FirstFromIs(b, p + 1, AMPERSAND);
      var q := FirstFrom(b, p + 1, AMPERSAND);
      var before, after := b[..p], b[q + 1..];
      assert b == before + [EQUALS] + name + [AMPERSAND] + after && EQUALS !in before;
    }
    if |name| <= NAME_SIZE && AMPERSAND !in name {
      forall before: Octets, after: Octets | EQUALS !in before && b == before + [EQUALS] + name + [AMPERSAND] + after
        ensures ScanOf(b) == Found(name)
      {
        NameBetween(b, before, name, after);
      }
    }
  }

  lemma NameBetween(b: Octets, before: Octets, name: Octets, after: Octets)
    requires EQUALS !in before && |name| <= NAME_SIZE && AMPERSAND !in name
    requires b == before + [EQUALS] + name + [AMPERSAND] + after
    ensures ScanOf(b) == Found(name)
  {
    var p, n := |before|, |name|;
    assert b[p] == EQUALS && b[p + 1 + n] == AMPERSAND && b[p + 1..p + 1 + n] == name;
    forall i | 0 <= i < p ensures b[i] != EQUALS {
      assert b[i] == before[i];
    }
    forall i | p + 1 <= i < p + 1 + n ensures b[i] != AMPERSAND {
      assert b[i] == name[i - p - 1];
    }
    FirstFromIs(b, 0, EQUALS);
    FirstFromIs(b, p + 1, AMPERSAND);
  }

  lemma PastNameParts(b: Octets) returns (before: Octets, name: Octets, after: Octets)
    requires ScanOf(b) == PastName
    ensures EQUALS !in before && |name| == NAME_SIZE + 1 && AMPERSAND !in name && b == before + [EQUALS] + name + after
  {
    FirstFromIs(b, 0, EQUALS);
    var p := NameStart(b);
    FirstFromIs(b, p + 1, AMPERSAND);
    before, name, after := b[..p], b[p + 1..p + 2 + NAME_SIZE], b[p + 2 + NAME_SIZE..];
  }

  /** The buffer overflows exactly on a request with 17 bytes other than '&' behind the first '='. */
  lemma PastNameIff(b: Octets)
    ensures ScanOf(b) == PastName <==>
      exists before: Octets, name: Octets, after: Octets ::
        EQUALS !in before && |name| == NAME_SIZE + 1 && AMPERSAND !in name && b == before + [EQUALS] + name + after
  {
    hide ScanOf;
    if ScanOf(b) == PastName {
      var before, name, after := PastNameParts(b);
      assert b == before + [EQUALS] + name + after;
    }
    forall before: Octets, name: Octets, after: Octets
      | EQUALS !in before && |name| == NAME_SIZE + 1 && AMPERSAND !in name && b == before + [EQUALS] + name + after
      ensures ScanOf(b) == PastName
    {
      LongName(b, before, name, after);
    }
  }

  lemma LongName(b: Octets, before: Octets, name: Octets, after: Octets)
    requires EQUALS !in before && |name| == NAME_SIZE + 1 && AMPERSAND !in name && b == before + [EQUALS] + name + after
    ensures ScanOf(b) == PastName
  {
    var p, n := |before|, |name|;
    assert b[p] == EQUALS;
    forall i | 0 <= i < p ensures b[i] != EQUALS {
      assert b[i] == before[i];
    }
    forall i | p + 1 <= i < p + 1 + n ensures b[i] != AMPERSAND {
      assert b[i] == name[i - p - 1];
    }
    FirstFromIs(b, 0, EQUALS);
    FirstFromIs(b, p + 1, AMPERSAND);
  }

  /** The scanner has read k bytes. */
  ghost predicate Scanned(b: Octets, k: nat, find: nat, name: Octets) {
    var p := NameStart(b);
    && k <= |b| && |name| <= NAME_SIZE
    && (find == 0 ==> k <= p && name == [])
    && (find == 1 ==> p < k <= |b| && k <= FirstFrom(b, p + 1, AMPERSAND) && name == b[p + 1..k])
    && (find == 2 ==> ScanOf(b) == Found(name))
  }

  lemma ScanOne(b: Octets, k: nat, find: nat, name: Octets)
    requires find < 2 && k < |b| && Scanned(b, k, find, name)
    ensures |name| <= NAME_SIZE
    ensures find == 0 && b[k] == EQUALS ==> Scanned(b, k + 1, 1, name)
    ensures find == 0 && b[k] != EQUALS ==> Scanned(b, k + 1, 0, name)
    ensures find == 1 && b[k] == AMPERSAND ==> Scanned(b, k + 1, 2, name)
    ensures find == 1 && b[k] != AMPERSAND && |name| < NAME_SIZE ==> Scanned(b, k + 1, 1, name + [b[k]])
    ensures find == 1 && b[k] != AMPERSAND && |name| == NAME_SIZE ==> ScanOf(b) == PastName
  {
    FirstFromIs(b, 0, EQUALS);
    var p := NameStart(b);
    if p < |b| {
      FirstFromIs(b, p + 1, AMPERSAND);
    }
    hide FirstFrom;
    if find == 1 && b[k] != AMPERSAND {
      assert b[p + 1..k + 1] == b[p + 1..k] + [b[k]];
    }
  }

  lemma ScanStart(b: Octets)
    ensures Scanned(b, 0, 0, [])
  {
    FirstFromIs(b, 0, EQUALS);
  }

  lemma ScanOut(b: Octets, find: nat, name: Octets)
    requires Scanned(b, |b|, find, name)
    ensures find < 2 ==> ScanOf(b) == PastRequest
  {
    FirstFromIs(b, 0, EQUALS);
    if NameStart(b) < |b| {
      FirstFromIs(b, NameStart(b) + 1, AMPERSAND);
    }
  }

  /** A name once found stays. */
  lemma ScanStays(b: Octets, k: nat, name: Octets)
    requires k <= |b|
    ensures (exists j: nat :: Scanned(b, j, 2, name)) ==> Scanned(b, k, 2, name) && ScanOf(b) == Found(name)
  {}

  /** The scan for the name, word by word and within a word byte by byte. It stops at the word, or at the
      byte of the name, that has no place. */
  method FindName(socket: array<bv64>) returns (r: Scan)
    ensures r == ScanOf(Bytes(socket[..]))
  {
    hide BytesOf, Bytes, Scanned, ScanOf;
    ghost var b := Bytes(socket[..]);
    var outer, find, name: Octets := 0, 0, [];
    ScanStart(b);
    SizeOfBytes(socket[..]);
    while find != 2
      invariant outer <= socket.Length && find <= 2 && Scanned(b, 8 * outer, find, name)
      decreases 2 - find, socket.Length - outer
    {
      if outer == socket.Length {
        ScanOut(b, find, name);
        return PastRequest;
      }
      var inner := 0;
      ghost var was := find;
      while inner < 8 && find != 2
        invariant inner <= 8 && was <= find <= 2 && Scanned(b, 8 * outer + inner, find, name)
      {
        ScanOne(b, 8 * outer + inner, find, name);
        BytesAt(socket[..], outer, inner);
        var ch := BytesOf(socket[outer])[inner];
        if find == 0 {
          if ch == EQUALS {
            find := 1;
          }
        } else if ch == AMPERSAND {
          find := 2;
        } else if |name| == NAME_SIZE {
          return PastName;
        } else {
          name := name + [ch];
        }
        inner := inner + 1;
      }
      ScanStays(b, 8 * (outer + 1), name);
      outer := outer + 1;
    }
    ScanStays(b, 8 * outer, name);
    r := Found(name);
  }

  lemma SizeOfBytes(words: seq<bv64>)
    ensures |Bytes(words)| == 8 * |words|
  {
    hide BytesOf;
    if words != [] {
      BytesAt(words, 0, 0);
    }
  }

  // ---------------------------------------------------------------- the reply

  const CONTENT_FIXED_SIZE: nat := 83
  const HEAD: string := "HTTP/1.1 200 OK\n" + "Connection: close\n" + "Content-length: "
  const TYPE: string := "\nContent-type: text/html\n\n"
  const OPEN: string := "<!DOCTYPE html>\n" + "<html>\n<body>\n" + "    Hello, "
  const CLOSE: string := ". You are now registered.\n" + "</body>\n</html>\n"

  function Content(name: Octets): Octets { Text(OPEN) + name + Text(CLOSE) }

  /** The reply as section 8.6 of RFC 9110 wants it: the length printed is that of the content. */
  function Reply(name: Octets): Octets { Text(HEAD) + Text(Decimal(|Content(name)|)) + Text(TYPE) + Content(name) }

  lemma ContentSize(name: Octets)
    ensures |Content(name)| == |name| + CONTENT_FIXED_SIZE
  {}

  // ---------------------------------------------------------------- what a client makes of it

  function CharOf(b: bv8): char { (b as int) as char }

  /** Bytes as a client reads them. */
  function Chars(b: Octets): string { seq(|b|, i requires 0 <= i < |b| => CharOf(b[i])) }

  predicate Narrow(s: string) { forall i :: 0 <= i < |s| ==> s[i] <= '~' }

  lemma CharBack(c: char)
    requires c <= '~'
    ensures CharOf(Octet(c)) == c
  {
    OctetBack(c as int);
  }

  lemma OctetBack(n: nat)
    requires n < 128
    ensures (n as bv8) as int == n
  {
    if n < 16 {
    } else if n < 32 {
    } else if n < 48 {
    } else if n < 64 {
    } else if n < 80 {
    } else if n < 96 {
    } else if n < 112 {
    } else {
    }
  }

  lemma CharsOfText(s: string)
    requires Narrow(s)
    ensures Chars(Text(s)) == s
  {
    hide CharOf, Octet;
    forall i | 0 <= i < |s| ensures CharOf(Octet(s[i])) == s[i] {
      CharBack(s[i]);
    }
  }

  lemma CharsConcat(a: Octets, b: Octets)
    ensures Chars(a + b) == Chars(a) + Chars(b)
  {
    hide CharOf;
  }

  /** The last line of the head. */
  const TYPE_LINE: string := "\nContent-type: text/html"

  lemma NarrowHead()
    ensures Narrow(HEAD)
  {}

  lemma NarrowType()
    ensures Narrow(TYPE) && TYPE == TYPE_LINE + "\n\n"
  {}

  lemma NarrowOpen()
    ensures Narrow(OPEN)
  {}

  lemma NarrowClose()
    ensures Narrow(CLOSE)
  {}

  lemma NarrowDigits(num: nat)
    ensures Narrow(Decimal(num))
  {
    DecimalRoundTrip(num);
    hide Decimal;
  }

  lemma ReplyText(name: Octets)
    ensures Chars(Reply(name)) == HEAD + Decimal(|Content(name)|) + TYPE_LINE + ("\n\n" + (OPEN + Chars(name) + CLOSE))
  {
    var digits := Decimal(|Content(name)|);
    NarrowHead();
    NarrowType();
    NarrowOpen();
    NarrowClose();
    NarrowDigits(|Content(name)|);
    hide Decimal, Text, Chars, HEAD, TYPE, OPEN, CLOSE, TYPE_LINE, Narrow;
    CharsOfText(HEAD);
    CharsOfText(TYPE);
    CharsOfText(OPEN);
    CharsOfText(CLOSE);
    CharsOfText(digits);
    CharsConcat(Text(OPEN), name);
    CharsConcat(Text(OPEN) + name, Text(CLOSE));
    CharsConcat(Text(HEAD), Text(digits));
    CharsConcat(Text(HEAD) + Text(digits), Text(TYPE));
    CharsConcat(Text(HEAD) + Text(digits) + Text(TYPE), Content(name));
    var body := OPEN + Chars(name) + CLOSE;
    assert HEAD + digits + (TYPE_LINE + "\n\n") + body == HEAD + digits + TYPE_LINE + ("\n\n" + body);
  }

  /** No line of the head is empty. */
  lemma FirstEmptyLine(digits: string, body: string)
    requires Canonical(digits)
    ensures forall i: nat :: i < |HEAD| + |digits + TYPE_LINE| ==> !PageReply.EmptyLineAt(HEAD + (digits + TYPE_LINE) + ("\n\n" + body), i)
  {
    PageReply.CanonicalDigits(digits);
    var s := HEAD + (digits + TYPE_LINE) + ("\n\n" + body);
    forall i: nat | i < |HEAD| + |digits + TYPE_LINE| ensures !PageReply.EmptyLineAt(s, i) {
      if i < |HEAD| {
        NoEmptyHead(HEAD, i);
        assert s[i] == HEAD[i] && (i + 1 < |HEAD| ==> s[i + 1] == HEAD[i + 1]);
      } else if i < |HEAD| + |digits| {
        assert s[i] == digits[i - |HEAD|];
      } else {
        var j := i - |HEAD| - |digits|;
        assert s[i] == TYPE_LINE[j] && (j + 1 < |TYPE_LINE| ==> s[i + 1] == TYPE_LINE[j + 1]);
        NoEmptyType(j);
      }
    }
  }

  lemma NoEmptyHead(head: string, i: nat)
    requires head == HEAD && i < |head|
    ensures head[i] == '\n' ==> i + 1 < |head| && head[i + 1] != '\n'
  {}

  lemma NoEmptyType(i: nat)
    requires i < |TYPE_LINE|
    ensures TYPE_LINE[i] == '\n' ==> i + 1 < |TYPE_LINE| && TYPE_LINE[i + 1] != '\n'
  {}

  /** A client that splits the reply at the first empty line finds the name between the two fixed texts, and the number
      after "Content-length: " is the length of what it finds. */
  lemma ReplyReadBack(name: Octets)
    ensures var text := Chars(Reply(name));
      && PageReply.Body(text) == OPEN + Chars(name) + CLOSE && HEAD <= text
      && Value(PageReply.Line(text[|HEAD|..])) == |OPEN + Chars(name) + CLOSE|
  {
    ReplyText(name);
    ContentIs(name);
    hide Decimal, Value, Canonical, PageReply.Body, PageReply.Line, Chars, Reply, Content, HEAD, OPEN, CLOSE, TYPE_LINE;
    var digits, body := Decimal(|Content(name)|), OPEN + Chars(name) + CLOSE;
    DecimalRoundTrip(|Content(name)|);
    FirstEmptyLine(digits, body);
    PageReply.FindsBody(HEAD, digits + TYPE_LINE, body);
    assert HEAD + (digits + TYPE_LINE) + ("\n\n" + body) == HEAD + digits + TYPE_LINE + ("\n\n" + body);
    TypeLine();
    PageReply.CanonicalDigits(digits);
    var rest := TYPE_LINE + ("\n\n" + body);
    assert (HEAD + digits + TYPE_LINE + ("\n\n" + body))[|HEAD|..] == digits + rest;
    PageReply.LineStops(digits, rest);
  }

  lemma TypeLine()
    ensures TYPE_LINE != [] && TYPE_LINE[0] == '\n'
  {}

  lemma ContentIs(name: Octets)
    ensures |Content(name)| == |OPEN + Chars(name) + CLOSE|
  {}

  /** The division loop, and the loop that emits its digits last to first. */
  method PutNumber(w: Writer, num: nat)
    requires w.Valid() && 0 < num < 1000 && w.responseSize + 3 <= 8 * w.region.Length
    modifies w, w.region
    ensures w.Valid() && w.Emitted() == old(w.Emitted()) + Text(Decimal(num))
    ensures w.responseSize == old(w.responseSize) + |Decimal(num)| <= old(w.responseSize) + 3
  {
    hide Writer.Valid, Writer.Emitted, Text;
    assert Pow10(3) == 1000;
    DecimalLength(num, 3);
    var digits := DigitsOf(num);
    var i := 0;
    ReversedSize(digits);
    assert Decimal(num)[..0] == [];
    NoText();
    while i < |digits|
      invariant i <= |digits| && w.Valid() && w.Emitted() == old(w.Emitted()) + Text(Decimal(num)[..i])
      invariant w.responseSize == old(w.responseSize) + i
    {
      ReversedAt(digits, i);
      w.RoomLeft();
      w.Putchar(Octet(digits[|digits| - i - 1]));
      TextNext(Decimal(num), i);
      i := i + 1;
    }
    assert Decimal(num)[..i] == Decimal(num);
  }

  method DigitsOf(num: nat) returns (digits: string)
    requires num > 0
    ensures Reversed(digits) == Decimal(num)
  {
    digits := [];
    var n: nat := num;
    NothingYet(num, digits);
    while n != 0
      invariant StillToCome(n) + Reversed(digits) == Decimal(num)
      decreases n
    {
      var res := n / 10;
      DigitLoop(n, digits);
      digits := digits + [Digit(n - 10 * res)];
      n := res;
    }
  }

  lemma NoText()
    ensures Text([]) == []
  {}

  lemma TextNext(s: string, i: nat)
    requires i < |s|
    ensures Text(s[..i + 1]) == Text(s[..i]) + [Octet(s[i])]
  {}

  /** register_success: the response region, and the size put in the metadata. A request in which the
      scan finds no name is not answered. */
  method RegisterSuccess(socket: array<bv64>, response: array<bv64>) returns (scan: Scan, size: nat)
    requires response.Length == 512 && socket != response
    modifies response
    ensures Bytes(socket[..]) == old(Bytes(socket[..])) && scan == ScanOf(Bytes(socket[..]))
    ensures size <= 4096 && |Bytes(response[..])| == 4096
    ensures scan.Found? ==> Bytes(response[..])[..size] == Reply(scan.name) && size == |Reply(scan.name)|
    ensures scan.Found? ==>
      var text := Chars(Bytes(response[..])[..size]);
      && PageReply.Body(text) == OPEN + Chars(scan.name) + CLOSE && HEAD <= text
      && Value(PageReply.Line(text[|HEAD|..])) == |PageReply.Body(text)|
    ensures !scan.Found? ==> size == 0 && response[..] == old(response[..])
  {
    scan := FindName(socket);
    hide BytesOf, Bytes, ScanOf, Writer.Valid, Writer.Emitted, Reply, Chars, Value, PageReply.Body, PageReply.Line, HEAD, OPEN, CLOSE;
    SizeOfBytes(response[..]);
    if !scan.Found? {
      size := 0;
      return;
    }
    NameFits(Bytes(socket[..]));
    ReplyReadBack(scan.name);
    var w := new Writer(response);
    WriteReply(w, scan.name);
    w.EmittedSize();
    SizeOfBytes(response[..]);
    size := w.responseSize;
  }

  lemma NameFits(b: Octets)
    ensures ScanOf(b).Found? ==> |ScanOf(b).name| <= NAME_SIZE
  {
    FirstFromIs(b, 0, EQUALS);
    if NameStart(b) < |b| {
      FirstFromIs(b, NameStart(b) + 1, AMPERSAND);
    }
  }

  method WriteReply(w: Writer, name: Octets)
    requires w.Valid() && w.responseSize == 0 && w.Emitted() == [] && w.region.Length == 512 && |name| <= NAME_SIZE
    modifies w, w.region
    ensures w.Valid() && w.Emitted() == Reply(name) && w.responseSize <= 4096
  {
    Sizes();
    ContentSize(name);
    hide Writer.Valid, Writer.Emitted, Text, HEAD, TYPE, OPEN, CLOSE, Decimal;
    w.PutOctets(Text(HEAD));
    assert w.Emitted() == Text(HEAD);
    PutNumber(w, |name| + CONTENT_FIXED_SIZE);
    w.PutOctets(Text(TYPE));
    ghost var before := w.Emitted();
    w.PutOctets(Text(OPEN));
    w.PutOctets(name);
    w.PutOctets(Text(CLOSE));
    assert before + Text(OPEN) + name + Text(CLOSE) == before + Content(name);
  }

  lemma Sizes()
    ensures |Text(HEAD)| == 50 && |Text(TYPE)| == 26 && |Text(OPEN)| == 41 && |Text(CLOSE)| == 42
  {}
}
