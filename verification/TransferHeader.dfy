/** The header of an offline file: fixed-width C strings, numbers in decimal. */
module TransferHeader {
  import opened Octets

  const HEADER_SIZE: nat := 960

  function Zeros(n: nat): (z: seq<Octet>)
    ensures |z| == n
  {
    seq(n, _ => 0)
  }

  // sprintf("%u")
  function Decimal(n: nat): (d: seq<Octet>)
    ensures d != []
  {
    if n < 10 then [48 + n] else Decimal(n / 10) + [48 + n % 10]
  }

  // The characters before the first NUL.
  function CString(b: seq<Octet>): (s: seq<Octet>)
    ensures |s| <= |b|
  {
    if b == [] || b[0] == 0 then [] else [b[0]] + CString(b[1..])
  }

  // atoi on a run of digits, by way of a 64-bit long
  function DigitsValue(s: seq<Octet>): nat {
    if s == [] || !(48 <= s[|s| - 1] <= 57) then 0
    else DigitsValue(s[..|s| - 1]) * 10 + (s[|s| - 1] - 48)
  }

  // The digits at the front.
  function DigitsFront(s: seq<Octet>): (d: seq<Octet>)
    ensures |d| <= |s|
  {
    if s == [] || !(48 <= s[0] <= 57) then [] else [s[0]] + DigitsFront(s[1..])
  }

  // string2int; signs and leading spaces, which the server never writes, are not read.
  function ToInt(s: seq<Octet>): Word32 { DigitsValue(DigitsFront(s)) % TWO_32 }

  predicate IsText(s: seq<Octet>) { forall i :: 0 <= i < |s| ==> s[i] != 0 }

  predicate IsDigits(s: seq<Octet>) { forall i :: 0 <= i < |s| ==> 48 <= s[i] <= 57 }

  lemma {:induction false} CStringText(s: seq<Octet>, rest: seq<Octet>)
    requires IsText(s) && rest != [] && rest[0] == 0
    ensures CString(s + rest) == s
  {
    if s == [] {
      assert s + rest == rest;
    } else {
      assert (s + rest)[1..] == s[1..] + rest;
      CStringText(s[1..], rest);
    }
  }

  lemma {:induction false} DigitsFrontAll(s: seq<Octet>)
    requires IsDigits(s)
    ensures DigitsFront(s) == s
  {
    if s != [] {
      DigitsFrontAll(s[1..]);
    }
  }

  lemma {:induction false} DecimalRead(n: nat)
    ensures IsDigits(Decimal(n)) && DigitsValue(Decimal(n)) == n
  {
    var d := Decimal(n);
    if n >= 10 {
      DecimalRead(n / 10);
      assert d[..|d| - 1] == Decimal(n / 10);
    } else {
      assert d[..0] == [] && DigitsValue([]) == 0;
    }
  }

  // Ten digits are enough for 32 bits, twenty for 64.
  lemma {:induction false} DecimalLength(n: nat, k: nat, bound: nat)
    requires k > 0 && n < bound && bound == PowerOfTen(k)
    ensures |Decimal(n)| <= k
    decreases k
  {
    if n >= 10 {
      assert k > 1;
      DecimalLength(n / 10, k - 1, PowerOfTen(k - 1));
    }
  }

  function PowerOfTen(k: nat): (p: nat)
    ensures p > 0
  {
    if k == 0 then 1 else 10 * PowerOfTen(k - 1)
  }

  lemma Powers()
    ensures PowerOfTen(1) == 10 && PowerOfTen(10) == 10_000_000_000 && PowerOfTen(20) == 100_000_000_000_000_000_000
  {
    assert PowerOfTen(2) == 100 && PowerOfTen(4) == 10_000;
    assert PowerOfTen(6) == 1_000_000 && PowerOfTen(8) == 100_000_000;
    assert PowerOfTen(12) == 1_000_000_000_000 && PowerOfTen(14) == 100_000_000_000_000;
    assert PowerOfTen(16) == 10_000_000_000_000_000 && PowerOfTen(18) == 1_000_000_000_000_000_000;
  }

  datatype Header = Header(taskId: seq<Octet>, fromUser: Word32, toUser: Word32, createTime: nat, fileSize: Word32)

  // What the setters can write without leaving their fields; a task id is a uuid of 36 characters.
  predicate Fits(h: Header) {
    IsText(h.taskId) && |h.taskId| < 128 && h.createTime < 0x1_0000_0000_0000_0000
  }

  function Field(s: seq<Octet>, width: nat): (f: seq<Octet>)
    requires |s| < width
    ensures |f| == width
  {
    s + Zeros(width - |s|)
  }

  lemma NumberFits(n: nat)
    ensures n < TWO_32 ==> |Decimal(n)| <= 10
    ensures n < 0x1_0000_0000_0000_0000 ==> |Decimal(n)| <= 20
  {
    Powers();
    if n < TWO_32 {
      DecimalLength(n, 10, PowerOfTen(10));
    }
    if n < 0x1_0000_0000_0000_0000 {
      DecimalLength(n, 20, PowerOfTen(20));
    }
  }

  // The file name is written as the empty string.
  function Encode(h: Header): (b: seq<Octet>)
    requires Fits(h)
    ensures |b| == HEADER_SIZE
  {
    NumberFits(h.fromUser);
    NumberFits(h.toUser);
    NumberFits(h.createTime);
    NumberFits(h.fileSize);
    Field(h.taskId, 128) + Field(Decimal(h.fromUser), 64) + Field(Decimal(h.toUser), 64)
    + Field(Decimal(h.createTime), 128) + Field([], 512) + Field(Decimal(h.fileSize), 64)
  }

  function TaskIdOf(b: seq<Octet>): seq<Octet> requires |b| >= HEADER_SIZE { CString(b[..128]) }
  function FromUserOf(b: seq<Octet>): Word32 requires |b| >= HEADER_SIZE { ToInt(CString(b[128..192])) }
  function ToUserOf(b: seq<Octet>): Word32 requires |b| >= HEADER_SIZE { ToInt(CString(b[192..256])) }
  function FileSizeOf(b: seq<Octet>): Word32 requires |b| >= HEADER_SIZE { ToInt(CString(b[896..960])) }

  lemma FieldRead(s: seq<Octet>, width: nat)
    requires |s| < width && IsText(s)
    ensures CString(Field(s, width)) == s
  {
    CStringText(s, Zeros(width - |s|));
  }

  lemma NumberRead(n: Word32, width: nat)
    requires |Decimal(n)| < width
    ensures ToInt(CString(Field(Decimal(n), width))) == n
  {
    hide CString, DigitsFront, DigitsValue, Decimal;
    DecimalRead(n);
    FieldRead(Decimal(n), width);
    DigitsFrontAll(Decimal(n));
  }

  // Where the fields are: each begins with its text and is filled with zeros.
  predicate FieldAt(b: seq<Octet>, at: nat, width: nat, s: seq<Octet>)
    requires at + width <= |b|
  {
    |s| < width && b[at..at + |s|] == s && forall i :: at + |s| <= i < at + width ==> b[i] == 0
  }

  lemma Layout(h: Header)
    requires Fits(h)
    ensures var b := Encode(h);
            && FieldAt(b, 0, 128, h.taskId) && FieldAt(b, 128, 64, Decimal(h.fromUser))
            && FieldAt(b, 192, 64, Decimal(h.toUser)) && FieldAt(b, 256, 128, Decimal(h.createTime))
            && FieldAt(b, 384, 512, []) && FieldAt(b, 896, 64, Decimal(h.fileSize))
  {
    hide Decimal;
    NumberFits(h.fromUser);
    NumberFits(h.toUser);
    NumberFits(h.createTime);
    NumberFits(h.fileSize);
    var b := Encode(h);
    Placed(b, 0, 128, h.taskId);
    Placed(b, 128, 64, Decimal(h.fromUser));
    Placed(b, 192, 64, Decimal(h.toUser));
    Placed(b, 256, 128, Decimal(h.createTime));
    Placed(b, 384, 512, []);
    Placed(b, 896, 64, Decimal(h.fileSize));
  }

  lemma Placed(b: seq<Octet>, at: nat, width: nat, s: seq<Octet>)
    requires |s| < width && at + width <= |b| && b[at..at + width] == Field(s, width)
    ensures FieldAt(b, at, width, s)
  {
    assert b[at..at + |s|] == b[at..at + width][..|s|] == s;
    forall i | at + |s| <= i < at + width ensures b[i] == 0 {
      assert b[i] == b[at..at + width][i - at];
    }
  }

  // The most significant digit first.
  lemma DecimalExample()
    ensures Decimal(4_096) == ['4' as int, '0' as int, '9' as int, '6' as int]
  {
    assert Decimal(40) == [52, 48] && Decimal(409) == [52, 48, 57];
  }

  // What the loader reads back is what was written.
  lemma HeaderRoundTrip(h: Header, body: seq<Octet>)
    requires Fits(h)
    ensures var b := Encode(h) + body;
            TaskIdOf(b) == h.taskId && FromUserOf(b) == h.fromUser && ToUserOf(b) == h.toUser
                && FileSizeOf(b) == h.fileSize
  {
    hide CString, Decimal, ToInt, Field;
    var b := Encode(h) + body;
    NumberFits(h.fromUser);
    NumberFits(h.toUser);
    NumberFits(h.createTime);
    NumberFits(h.fileSize);
    assert b[..128] == Field(h.taskId, 128);
    assert b[128..192] == Field(Decimal(h.fromUser), 64);
    assert b[192..256] == Field(Decimal(h.toUser), 64);
    assert b[896..960] == Field(Decimal(h.fileSize), 64);
    FieldRead(h.taskId, 128);
    NumberRead(h.fromUser, 64);
    NumberRead(h.toUser, 64);
    NumberRead(h.fileSize, 64);
  }
}
