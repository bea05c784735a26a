/** Values shared by the two wire dialects: a frame as the JSON decoder hands it
    over, and the small pieces of text formatting the error messages use. */
module Wire {

  datatype Option<+T> = None | Some(value: T)

  /** One frame read from the connection, after JSON decoding: either the bytes
      were not a JSON array of strings (the decoder's complaint is kept), or they
      decoded to the given array. */
  datatype RawFrame = Malformed(reason: string) | StringArray(data: seq<string>)

  /** A bounded queue (a buffered channel, as the sequence of values waiting
      in it) after a non-blocking attempt to enqueue `x`: appended when there
      is room, untouched when full. Nothing queued is lost or reordered, and
      the bound is never exceeded. */
  function Offer<T>(queue: seq<T>, capacity: nat, x: T): (q: seq<T>)
    ensures queue <= q && |q| <= |queue| + 1
    ensures q == queue <==> |queue| >= capacity
    ensures |queue| <= capacity ==> |q| <= capacity
    ensures |queue| < capacity ==> q[|queue|] == x
  {
    if |queue| < capacity then queue + [x] else queue
  }

  /** Go's `%q` verb, for strings that need no escaping. */
  function Quote(s: string): (q: string)
    ensures |q| == |s| + 2 && q[0] == '"' && q[|q| - 1] == '"'
    ensures q[1..|q| - 1] == s
  {
    "\"" + s + "\""
  }

  function DigitChar(d: nat): (c: char)
    requires d < 10
    ensures '0' <= c <= '9'
  {
    ('0' as int + d) as char
  }

  function DigitValue(c: char): nat
  {
    if '0' <= c <= '9' then c as nat - '0' as nat else 0
  }

  /** Go's `%d` verb on a non-negative integer. */
  function Decimal(n: nat): (s: string)
    ensures 1 <= |s|
    ensures forall i :: 0 <= i < |s| ==> '0' <= s[i] <= '9'
    decreases n
  {
    if n < 10 then [DigitChar(n)] else Decimal(n / 10) + [DigitChar(n % 10)]
  }

  /** Reads a string of decimal digits back as a number. */
  function DecimalValue(s: string): nat
  {
    if s == [] then 0 else 10 * DecimalValue(s[..|s| - 1]) + DigitValue(s[|s| - 1])
  }

  /** `%d` loses nothing: reading the digits back gives the number. */
  lemma {:induction false} DecimalRoundTrip(n: nat)
    ensures DecimalValue(Decimal(n)) == n
    decreases n
  {
    var s := Decimal(n);
    if n < 10 {
      assert s == [DigitChar(n)];
      assert s[..0] == [];
    } else {
      DecimalRoundTrip(n / 10);
      assert s[..|s| - 1] == Decimal(n / 10);
      assert DigitValue(s[|s| - 1]) == n % 10;
    }
  }

  /** Number of bytes of the UTF-8 encoding of one character. */
  function RuneLen(c: char): (n: nat)
    ensures 1 <= n <= 4
    ensures n == 1 <==> c as int < 0x80
  {
    if c as int < 0x80 then 1
    else if c as int < 0x800 then 2
    else if c as int < 0x10000 then 3
    else 4
  }

  /** Go's `len` on a string: the length of its UTF-8 encoding in bytes. */
  function Utf8Len(s: string): (n: nat)
    ensures |s| <= n <= 4 * |s|
  {
    if s == [] then 0 else RuneLen(s[0]) + Utf8Len(s[1..])
  }

  predicate IsAscii(s: string)
  {
    forall i :: 0 <= i < |s| ==> s[i] as int < 0x80
  }

  /** On ASCII text the byte length and the character count agree. */
  lemma {:induction false} AsciiUtf8Len(s: string)
    requires IsAscii(s)
    ensures Utf8Len(s) == |s|
  {
    if s != [] {
      assert s[0] as int < 0x80;
      assert IsAscii(s[1..]) by {
        forall i | 0 <= i < |s[1..]| ensures s[1..][i] as int < 0x80 {
          assert s[1..][i] == s[i + 1];
        }
      }
      AsciiUtf8Len(s[1..]);
    }
  }

  /** The byte length equals the character count only for ASCII text. */
  lemma {:induction false} Utf8LenIsCountOnlyForAscii(s: string)
    requires Utf8Len(s) == |s|
    ensures IsAscii(s)
  {
    if s != [] {
      assert Utf8Len(s[1..]) >= |s[1..]|;
      assert RuneLen(s[0]) == 1;
      Utf8LenIsCountOnlyForAscii(s[1..]);
      forall i | 0 <= i < |s| ensures s[i] as int < 0x80 {
        if i > 0 {
          assert s[i] == s[1..][i - 1];
        }
      }
    }
  }
}
