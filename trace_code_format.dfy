/** The trace-code format and the derived block data of src/pages/TraceCode.tsx: the
    validator, and the hex "hashes" computed from the sum of a code's character codes. */
module TraceCodeFormat {
  import opened Text

  /** One character of `[A-Z0-9]`. */
  predicate CodeChar(c: char) {
    ('A' <= c <= 'Z') || ('0' <= c <= '9')
  }

  /** `/^XY-[A-Z0-9]{9}-[A-Z0-9]{6}$/.test(s)`. */
  predicate Matches(s: string) {
    && |s| == 19 && s[..3] == "XY-" && s[12] == '-'
    && (forall i :: 3 <= i < 12 ==> CodeChar(s[i]))
    && (forall i :: 13 <= i < 19 ==> CodeChar(s[i]))
  }

  /** `code.trim().toUpperCase()`. */
  function Normalise(code: string): string {
    Upper(Trim(code))
  }

  /** `isValidTraceCode`. */
  predicate IsValidTraceCode(code: string) {
    Matches(Normalise(code))
  }

  /** A valid code normalises to exactly nineteen characters, `XY-` first and a dash
      in the middle. */
  lemma ValidShape(code: string)
    requires IsValidTraceCode(code)
    ensures |Normalise(code)| == 19 && Normalise(code)[..3] == "XY-" && Normalise(code)[12] == '-'
    ensures 19 <= |code|
  {
    TrimmedTrim(code);
  }

  lemma UpperIdempotent(s: string)
    ensures Upper(Upper(s)) == Upper(s)
  {
  }

  /** Upper-casing neither creates nor removes white space at either end. */
  lemma UpperKeepsTrimmed(s: string)
    requires Trimmed(s)
    ensures Trimmed(Upper(s))
  {
  }

  /** Normalising is idempotent. */
  lemma {:induction false} NormaliseIdempotent(code: string)
    ensures Normalise(Normalise(code)) == Normalise(code)
  {
    var t := Trim(code);
    TrimmedTrim(code);
    UpperKeepsTrimmed(t);
    TrimTrimmed(Upper(t));
    UpperIdempotent(t);
  }

  /** Validity does not change when a normalised code is validated again. */
  lemma {:induction false} ValidNormalised(code: string)
    ensures IsValidTraceCode(Normalise(code)) == IsValidTraceCode(code)
  {
    NormaliseIdempotent(code);
  }

  /** Trimming first changes nothing either. */
  lemma {:induction false} NormaliseTrimmed(code: string)
    ensures Normalise(Trim(code)) == Normalise(code)
  {
    TrimIdempotent(code);
  }

  /** `codeUpper.split('').reduce((acc, char) => acc + char.charCodeAt(0), 0)`. */
  function HashSeed(s: string): nat {
    if |s| == 0 then 0 else HashSeed(s[..|s| - 1]) + s[|s| - 1] as nat
  }

  /** `d.toString(16)` for `0 <= d < 16`. */
  function HexDigit(d: nat): char
    requires d < 16
  {
    if d < 10 then ('0' as int + d) as char else ('a' as int + d - 10) as char
  }

  /** `Array.from({ length: len }, (_, i) => ((seed + offset + i) % 16).toString(16)).join('')`. */
  function HexRun(seed: nat, offset: nat, len: nat): (r: string) {
    seq(len, i requires 0 <= i => HexDigit((seed + offset + i) % 16))
  }

  /** The block hash: `0x` and 64 digits. */
  function BlockHash(seed: nat): string {
    "0x" + HexRun(seed, 0, 64)
  }

  /** The hash of the `k`-th certificate: `0x` and 16 digits. */
  function CertificateHash(seed: nat, k: nat): string {
    "0x" + HexRun(seed, k, 16)
  }

  /** Each digit of a hash is one hex digit of `seed + offset + i`. */
  lemma HexRunDigits(seed: nat, offset: nat, len: nat)
    ensures |HexRun(seed, offset, len)| == len
    ensures forall i :: 0 <= i < len ==> HexRun(seed, offset, len)[i] == HexDigit((seed + offset + i) % 16)
  {
  }

  lemma HexDigitInjective(a: nat, b: nat)
    requires a < 16 && b < 16 && HexDigit(a) == HexDigit(b)
    ensures a == b
  {
  }

  /** A block hash is 66 characters, and every digit is a lower-case hex digit that the
      one sixteen places on repeats. */
  lemma BlockHashShape(seed: nat)
    ensures |BlockHash(seed)| == 66 && BlockHash(seed)[..2] == "0x"
    ensures forall i :: 2 <= i < 66 ==>
      ('0' <= BlockHash(seed)[i] <= '9') || ('a' <= BlockHash(seed)[i] <= 'f')
    ensures forall i :: 2 <= i < 50 ==> BlockHash(seed)[i] == BlockHash(seed)[i + 16]
  {
    HexRunDigits(seed, 0, 64);
    forall i | 2 <= i < 66
      ensures ('0' <= BlockHash(seed)[i] <= '9') || ('a' <= BlockHash(seed)[i] <= 'f')
    {
      assert BlockHash(seed)[i] == HexDigit((seed + i - 2) % 16);
    }
    forall i | 2 <= i < 50 ensures BlockHash(seed)[i] == BlockHash(seed)[i + 16] {
      assert (seed + i - 2) % 16 == (seed + i + 16 - 2) % 16;
    }
  }

  /** The `k`-th certificate hash is the block hash's run of digits shifted by `k`. */
  lemma CertificateIsShiftedBlock(seed: nat, k: nat)
    requires 1 <= k <= 3
    ensures |CertificateHash(seed, k)| == 18
    ensures forall i :: 2 <= i < 18 ==> CertificateHash(seed, k)[i] == BlockHash(seed)[i + k]
  {
    HexRunDigits(seed, k, 16);
    HexRunDigits(seed, 0, 64);
  }

  lemma ModShift(a: nat, b: nat, c: nat)
    requires a % 16 == b % 16
    ensures (a + c) % 16 == (b + c) % 16
  {
  }

  /** Seeds that agree modulo 16 give the same digits. */
  lemma {:induction false} HexRunModulo(s1: nat, s2: nat, offset: nat, len: nat)
    requires s1 % 16 == s2 % 16
    ensures HexRun(s1, offset, len) == HexRun(s2, offset, len)
  {
    HexRunDigits(s1, offset, len);
    HexRunDigits(s2, offset, len);
    forall i | 0 <= i < len ensures HexRun(s1, offset, len)[i] == HexRun(s2, offset, len)[i] {
      ModShift(s1, s2, offset + i);
    }
  }

  /** Two seeds give the same block hash exactly when they agree modulo 16, so there are
      only sixteen block hashes. */
  lemma BlockHashIff(s1: nat, s2: nat)
    ensures BlockHash(s1) == BlockHash(s2) <==> s1 % 16 == s2 % 16
  {
    if s1 % 16 == s2 % 16 {
      HexRunModulo(s1, s2, 0, 64);
    } else {
      HexRunDigits(s1, 0, 64);
      HexRunDigits(s2, 0, 64);
      assert BlockHash(s1)[2] == HexDigit(s1 % 16);
      assert BlockHash(s2)[2] == HexDigit(s2 % 16);
      if HexDigit(s1 % 16) == HexDigit(s2 % 16) {
        HexDigitInjective(s1 % 16, s2 % 16);
      }
    }
  }

  /** Swapping two neighbouring characters keeps the seed, so every rearrangement of a
      code yields the same hashes. */
  lemma {:induction false} HashSeedSwap(p: string, x: char, y: char, q: string)
    ensures HashSeed(p + [x, y] + q) == HashSeed(p + [y, x] + q)
    decreases |q|
  {
    if |q| == 0 {
      assert p + [x, y] + q == p + [x] + [y];
      assert p + [y, x] + q == p + [y] + [x];
      assert (p + [x] + [y])[..|p| + 1] == p + [x];
      assert (p + [y] + [x])[..|p| + 1] == p + [y];
      assert (p + [x])[..|p|] == p;
      assert (p + [y])[..|p|] == p;
    } else {
      var q' := q[..|q| - 1];
      assert (p + [x, y] + q)[..|p| + 2 + |q'|] == p + [x, y] + q';
      assert (p + [y, x] + q)[..|p| + 2 + |q'|] == p + [y, x] + q';
      HashSeedSwap(p, x, y, q');
    }
  }

  /** Swapping the first two characters of the random part of a valid code whose two
      characters differ gives another valid code with the same seed, and therefore the
      same block hash and certificate hashes: the derived data does not tell the two
      codes apart. */
  lemma {:induction false} SwappedCodeSharesSeed(code: string)
    requires Matches(code) && code[13] != code[14]
    ensures var swapped := code[..13] + [code[14], code[13]] + code[15..];
      && Matches(swapped) && swapped != code && HashSeed(swapped) == HashSeed(code)
  {
    var swapped := code[..13] + [code[14], code[13]] + code[15..];
    assert code == code[..13] + [code[13], code[14]] + code[15..];
    HashSeedSwap(code[..13], code[13], code[14], code[15..]);
    assert swapped[13] == code[14];
    assert swapped[..3] == code[..3];
    assert forall i :: 3 <= i < 13 ==> swapped[i] == code[i];
    assert forall i :: 15 <= i < 19 ==> swapped[i] == code[i];
  }
}
