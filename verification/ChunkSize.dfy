/**
  The size line of a chunk: `split(';')`, `trim` and `usize::from_str_radix(_, 16)` as the decoders
  apply them (src/worker.rs, src/ingestion.rs), and chunk sizes as section 7.1 of RFC 9112 writes them.

  A byte of 128 or more is neither white space nor a digit here.
*/
module ChunkSize {
  import opened Wrappers
  import opened LineSplitting

  const SEMICOLON: Byte := 59
  const PLUS: Byte := 43
  const CR: Byte := 13
  const USIZE_MAX := 0xFFFF_FFFF_FFFF_FFFF

  predicate IsSpace(b: Byte) {
    9 <= b <= 13 || b == 32
  }

  predicate IsBlank(s: Bytes) {
    forall i :: 0 <= i < |s| ==> IsSpace(s[i])
  }

  predicate IsHexDigit(b: Byte) {
    48 <= b <= 57 || 65 <= b <= 70 || 97 <= b <= 102
  }

  function DigitValue(b: Byte): (v: nat)
    requires IsHexDigit(b)
    ensures v < 16
  {
    if b <= 57 then b - 48 else if b <= 70 then b - 55 else b - 87
  }

  predicate IsHex(s: Bytes) {
    forall i :: 0 <= i < |s| ==> IsHexDigit(s[i])
  }

  function HexValue(s: Bytes): nat
    requires IsHex(s)
  {
    if s == [] then 0 else HexValue(s[..|s| - 1]) * 16 + DigitValue(s[|s| - 1])
  }

  /** Up to the first semicolon. */
  function BeforeSemicolon(s: Bytes): (t: Bytes)
    ensures |t| <= |s| && t == s[..|t|]
  {
    if s == [] || s[0] == SEMICOLON then [] else [s[0]] + BeforeSemicolon(s[1..])
  }

  function TrimStart(s: Bytes): Bytes {
    if s != [] && IsSpace(s[0]) then TrimStart(s[1..]) else s
  }

  function TrimEnd(s: Bytes): Bytes {
    if s != [] && IsSpace(s[|s| - 1]) then TrimEnd(s[..|s| - 1]) else s
  }

  function Trim(s: Bytes): Bytes {
    TrimEnd(TrimStart(s))
  }

  /** An optional plus sign and at least one digit, with a value that fits 64 bits. */
  function ParseSize(s: Bytes): Option<nat> {
    var digits := if |s| > 1 && s[0] == PLUS then s[1..] else s;
    if digits != [] && IsHex(digits) && HexValue(digits) <= USIZE_MAX then Some(HexValue(digits)) else None
  }

  // ---------------------------------------------------------------- sizes as a sender writes them

  /** A chunk extension: nothing, or optional blanks and a semicolon before the rest of the line. */
  predicate IsExtension(e: Bytes) {
    NewlineFree(e) && (e == [] || (TrimStart(e) != [] && TrimStart(e)[0] == SEMICOLON))
  }

  lemma {:induction false} BeforeSemicolonOfDigits(size: Bytes, rest: Bytes)
    requires IsHex(size)
    ensures BeforeSemicolon(size + rest) == size + BeforeSemicolon(rest)
  {
    if size == [] {
      assert size + rest == rest;
    } else {
      assert (size + rest)[1..] == size[1..] + rest;
      BeforeSemicolonOfDigits(size[1..], rest);
    }
  }

  lemma {:induction false} TrimEndBlanks(s: Bytes, blanks: Bytes)
    requires s != [] && !IsSpace(s[|s| - 1]) && IsBlank(blanks)
    ensures TrimEnd(s + blanks) == s
  {
    if blanks == [] {
      assert s + blanks == s;
    } else {
      var n := |blanks| - 1;
      assert (s + blanks)[..|s + blanks| - 1] == s + blanks[..n];
      TrimEndBlanks(s, blanks[..n]);
    }
  }

  lemma {:induction false} TrimBlank(blanks: Bytes)
    requires IsBlank(blanks)
    ensures TrimStart(blanks) == [] && Trim(blanks) == []
  {
    if blanks != [] {
      TrimBlank(blanks[1..]);
    }
  }

  /** Trimming takes away nothing but white space. */
  lemma {:induction false} TrimStartKeeps(s: Bytes, b: Byte)
    requires b in s && !IsSpace(b)
    ensures b in TrimStart(s)
  {
    if IsSpace(s[0]) {
      TrimStartKeeps(s[1..], b);
    }
  }

  lemma {:induction false} TrimEndKeeps(s: Bytes, b: Byte)
    requires b in s && !IsSpace(b)
    ensures b in TrimEnd(s)
  {
    var n := |s| - 1;
    if IsSpace(s[n]) {
      assert s == s[..n] + [s[n]];
      TrimEndKeeps(s[..n], b);
    }
  }

  lemma TrimKeeps(s: Bytes, b: Byte)
    requires b in s && !IsSpace(b)
    ensures b in Trim(s)
  {
    TrimStartKeeps(s, b);
    TrimEndKeeps(TrimStart(s), b);
  }

  /** A text with anything in it but digits, and a plus sign in front, is no size. */
  lemma StrangeByteIsNoSize(s: Bytes, b: Byte)
    requires b in s && !IsHexDigit(b) && b != PLUS
    ensures ParseSize(s) == None
  {
    var i :| 0 <= i < |s| && s[i] == b;
    if |s| > 1 && s[0] == PLUS {
      assert s[1..][i - 1] == b;
    }
  }

  lemma {:induction false} ExtensionThenCrLf(e: Bytes)
    requires IsExtension(e)
    ensures IsBlank(BeforeSemicolon(e + [CR, NEWLINE]))
  {
    if e == [] {
      assert e + [CR, NEWLINE] == [CR] + [NEWLINE];
      assert BeforeSemicolon([CR, NEWLINE]) == [CR, NEWLINE] by {
        assert [CR, NEWLINE][1..] == [NEWLINE];
        assert [NEWLINE][1..] == [];
      }
    } else if e[0] != SEMICOLON {
      assert (e + [CR, NEWLINE])[1..] == e[1..] + [CR, NEWLINE];
      assert IsSpace(e[0]);
      ExtensionThenCrLf(e[1..]);
      assert BeforeSemicolon(e + [CR, NEWLINE]) == [e[0]] + BeforeSemicolon(e[1..] + [CR, NEWLINE]);
    }
  }

  /** The decoder reads back the size a sender wrote, whatever extension follows it. */
  lemma SizeLineReadsBack(size: Bytes, extension: Bytes)
    requires size != [] && IsHex(size) && IsExtension(extension)
    ensures Trim(BeforeSemicolon(size + extension + [CR, NEWLINE])) == size
  {
    var rest := extension + [CR, NEWLINE];
    assert size + extension + [CR, NEWLINE] == size + rest;
    BeforeSemicolonOfDigits(size, rest);
    ExtensionThenCrLf(extension);
    var blanks := BeforeSemicolon(rest);
    assert TrimStart(size + blanks) == size + blanks;
    TrimEndBlanks(size, blanks);
  }

  /** The decoder that does not split at semicolons reads back a size written without an extension. */
  lemma PlainSizeLineReadsBack(size: Bytes)
    requires size != [] && IsHex(size)
    ensures Trim(size + [CR, NEWLINE]) == size
  {
    assert TrimStart(size + [CR, NEWLINE]) == size + [CR, NEWLINE];
    TrimEndBlanks(size, [CR, NEWLINE]);
  }

  lemma SizeParses(size: Bytes)
    requires size != [] && IsHex(size)
    ensures ParseSize(size) == if HexValue(size) <= USIZE_MAX then Some(HexValue(size)) else None
  {
  }

  /** The first digits of a number are worth no more than the number. */
  lemma {:induction false} HexPrefix(s: Bytes, n: nat)
    requires n <= |s| && IsHex(s)
    ensures HexValue(s[..n]) <= HexValue(s)
    decreases |s|
  {
    if n == |s| {
      assert s[..n] == s;
    } else {
      assert s[..|s| - 1][..n] == s[..n];
      HexPrefix(s[..|s| - 1], n);
    }
  }

  // ---------------------------------------------------------------- exactly what parses

  const ZERO: Byte := 48

  function Digit(v: nat): Byte
    requires v < 16
  {
    if v < 10 then 48 + v else 87 + v
  }

  /** A number as it is usually written: lower case, no leading zeros. */
  function ToHex(n: nat): (s: Bytes)
    ensures s != [] && IsHex(s)
  {
    if n < 16 then [Digit(n)] else ToHex(n / 16) + [Digit(n % 16)]
  }

  function LowerDigit(b: Byte): Byte {
    if 65 <= b <= 70 then b + 32 else b
  }

  function Lower(s: Bytes): Bytes {
    seq(|s|, i requires 0 <= i < |s| => LowerDigit(s[i]))
  }

  predicate AllZeros(s: Bytes) {
    forall i :: 0 <= i < |s| ==> s[i] == ZERO
  }

  lemma HexMore(s: Bytes, d: Byte)
    requires IsHex(s) && IsHexDigit(d)
    ensures IsHex(s + [d]) && HexValue(s + [d]) == HexValue(s) * 16 + DigitValue(d)
  {
    assert (s + [d])[..|s|] == s;
  }

  lemma {:induction false} ToHexValue(n: nat, zeros: Bytes)
    requires AllZeros(zeros)
    ensures IsHex(zeros + ToHex(n)) && HexValue(zeros + ToHex(n)) == n
    decreases n
  {
    if n < 16 {
      ZerosValue(zeros);
      HexMore(zeros, Digit(n));
    } else {
      ToHexValue(n / 16, zeros);
      HexMore(zeros + ToHex(n / 16), Digit(n % 16));
      assert zeros + ToHex(n) == zeros + ToHex(n / 16) + [Digit(n % 16)];
    }
  }

  lemma {:induction false} ZerosValue(zeros: Bytes)
    requires AllZeros(zeros)
    ensures IsHex(zeros) && HexValue(zeros) == 0
  {
    if zeros != [] {
      ZerosValue(zeros[..|zeros| - 1]);
    }
  }

  /** Digits are their number as it is usually written, in either case, behind some zeros. */
  lemma {:induction false} DigitsOf(s: Bytes) returns (zeros: Bytes)
    requires IsHex(s) && s != []
    ensures AllZeros(zeros) && Lower(s) == zeros + ToHex(HexValue(s))
    decreases |s|
  {
    var n := |s| - 1;
    var front, d := s[..n], s[n];
    assert Lower(s) == Lower(front) + [LowerDigit(d)] && LowerDigit(d) == Digit(DigitValue(d));
    if front == [] {
      zeros := [];
    } else {
      var z := DigitsOf(front);
      if HexValue(front) == 0 {
        zeros := z + [ZERO];
        assert ToHex(0) == [ZERO];
      } else {
        zeros := z;
        assert HexValue(s) / 16 == HexValue(front) && HexValue(s) % 16 == DigitValue(d);
      }
    }
  }

  lemma {:induction false} LowerValue(s: Bytes)
    requires IsHex(Lower(s))
    ensures IsHex(s) && HexValue(Lower(s)) == HexValue(s)
    decreases |s|
  {
    forall i | 0 <= i < |s| ensures IsHexDigit(s[i]) {
      assert IsHexDigit(Lower(s)[i]);
    }
    if s != [] {
      var n := |s| - 1;
      assert Lower(s)[..n] == Lower(s[..n]);
      LowerValue(s[..n]);
      assert Lower(s)[n] == LowerDigit(s[n]);
    }
  }

  /** `s` writes `n`: in either case, with leading zeros and a plus sign if it likes. */
  ghost predicate Writes(s: Bytes, n: nat) {
    exists zeros :: AllZeros(zeros) && (Lower(s) == zeros + ToHex(n) || Lower(s) == [PLUS] + (zeros + ToHex(n)))
  }

  /** A text parses to `n` if and only if it writes `n` and `n` fits 64 bits. */
  lemma ParsesWhatIsWritten(s: Bytes, n: nat)
    ensures ParseSize(s) == Some(n) <==> Writes(s, n) && n <= USIZE_MAX
  {
    if ParseSize(s) == Some(n) {
      ParsedIsWritten(s, n);
    }
    if Writes(s, n) && n <= USIZE_MAX {
      WrittenParses(s, n);
    }
  }

  lemma ParsedIsWritten(s: Bytes, n: nat)
    requires ParseSize(s) == Some(n)
    ensures Writes(s, n)
  {
    if |s| > 1 && s[0] == PLUS {
      var zeros := DigitsOf(s[1..]);
      assert Lower(s) == [PLUS] + Lower(s[1..]);
    } else {
      var zeros := DigitsOf(s);
    }
  }

  lemma LowerParts(s: Bytes)
    requires |s| > 0 && LowerDigit(s[0]) == PLUS
    ensures s[0] == PLUS && Lower(s) == [PLUS] + Lower(s[1..])
  {
    assert Lower(s) == [LowerDigit(s[0])] + Lower(s[1..]);
  }

  lemma {:induction false} DigitsParse(s: Bytes, zeros: Bytes, n: nat)
    requires AllZeros(zeros) && Lower(s) == zeros + ToHex(n)
    ensures s != [] && s[0] != PLUS && IsHex(s) && HexValue(s) == n
  {
    assert |Lower(s)| == |s| == |zeros| + |ToHex(n)|;
    ToHexValue(n, zeros);
    LowerValue(s);
    assert IsHexDigit(s[0]);
  }

  lemma {:induction false} WrittenParses(s: Bytes, n: nat)
    requires Writes(s, n) && n <= USIZE_MAX
    ensures ParseSize(s) == Some(n)
  {
    var zeros :| AllZeros(zeros) && (Lower(s) == zeros + ToHex(n) || Lower(s) == [PLUS] + (zeros + ToHex(n)));
    if Lower(s) == zeros + ToHex(n) {
      DigitsParse(s, zeros, n);
    } else {
      assert |s| == |Lower(s)| && Lower(s)[0] == PLUS;
      LowerParts(s);
      assert Lower(s[1..]) == Lower(s)[1..] == zeros + ToHex(n);
      DigitsParse(s[1..], zeros, n);
    }
  }
}
