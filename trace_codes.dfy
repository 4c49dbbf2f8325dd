/** The used-code registry and the test-code generator of
    app/src/contexts/TraceCodeContext.tsx. */
module TraceCodes {
  import opened Text
  import opened TraceCodeFormat

  /** `n.toString(36)` digit for `d`. */
  function Base36Digit(d: nat): char
    requires d < 36
  {
    if d < 10 then ('0' as int + d) as char else ('a' as int + d - 10) as char
  }

  /** A character `toString(36)` produces. */
  predicate IsBase36Char(c: char) {
    ('0' <= c <= '9') || ('a' <= c <= 'z')
  }

  /** `n.toString(36)` for a non-negative integer. */
  function Base36(n: nat): (r: string)
    ensures |r| > 0
    ensures forall i :: 0 <= i < |r| ==> IsBase36Char(r[i])
  {
    if n < 36 then [Base36Digit(n)]
    else
      var front := Base36(n / 36);
      var r := front + [Base36Digit(n % 36)];
      assert forall i :: 0 <= i < |front| ==> r[i] == front[i];
      r
  }

  /** `.padStart(9, '0').slice(-9)`: exactly nine characters, the last nine of `s` or `s`
      after leading zeros. */
  function LastNine(s: string): (r: string)
    ensures |r| == 9
    ensures |s| >= 9 ==> r == s[|s| - 9..]
    ensures |s| < 9 ==> r[9 - |s|..] == s && forall i :: 0 <= i < 9 - |s| ==> r[i] == '0'
  {
    if |s| >= 9 then s[|s| - 9..] else seq(9 - |s|, _ => '0') + s
  }

  /** `Math.random().toString(36).substr(2, 6).toUpperCase()`, given the digits that follow
      `0.` in the rendering of the drawn number (none when it is 0). */
  function RandomPart(fraction: string): (r: string)
    ensures |r| == if |fraction| < 6 then |fraction| else 6
  {
    Upper(if |fraction| < 6 then fraction else fraction[..6])
  }

  /** `generateTestCode` at clock reading `now` with the drawn `fraction`. */
  function TestCode(now: nat, fraction: string): (r: string)
    ensures |r| == 13 + |RandomPart(fraction)| && |r| <= 19
    ensures r[..3] == "XY-" && r[12] == '-'
  {
    "XY-" + LastNine(Upper(Base36(now))) + "-" + RandomPart(fraction)
  }

  /** The middle part is nine characters of `[A-Z0-9]`. */
  lemma MiddleChars(now: nat)
    ensures forall i :: 0 <= i < 9 ==> CodeChar(LastNine(Upper(Base36(now)))[i])
  {
    var b := Upper(Base36(now));
    var middle := LastNine(b);
    forall i | 0 <= i < 9 ensures CodeChar(middle[i]) {
      if |b| >= 9 {
        assert middle[i] == b[|b| - 9 + i];
      } else if i >= 9 - |b| {
        assert middle[i] == middle[9 - |b|..][i - (9 - |b|)];
      }
    }
  }

  /** The random part of a base-36 draw is made of `[A-Z0-9]`. */
  lemma RandomChars(fraction: string)
    requires forall i :: 0 <= i < |fraction| ==> IsBase36Char(fraction[i])
    ensures forall i :: 0 <= i < |RandomPart(fraction)| ==> CodeChar(RandomPart(fraction)[i])
  {
  }

  /** The layout every generated code has: `XY-`, nine characters of `[A-Z0-9]`, a dash,
      and at most six more characters of `[A-Z0-9]`. */
  predicate Shaped(code: string) {
    && 13 <= |code| <= 19 && code[..3] == "XY-" && code[12] == '-'
    && (forall i :: 3 <= i < 12 ==> CodeChar(code[i]))
    && (forall i :: 13 <= i < |code| ==> CodeChar(code[i]))
  }

  /** A string with no ASCII lower-case letter is its own upper case. */
  lemma UpperFixed(s: string)
    requires forall i :: 0 <= i < |s| ==> !('a' <= s[i] <= 'z')
    ensures Upper(s) == s
  {
  }

  /** A shaped code is already normalised, so it is valid exactly when it is complete. */
  lemma {:induction false} ShapedValidIff(code: string)
    requires Shaped(code)
    ensures IsValidTraceCode(code) <==> |code| == 19
  {
    assert code[0] == code[..3][0] == 'X';
    assert forall i :: 0 <= i < 3 ==> code[i] == code[..3][i];
    assert CodeChar(code[|code| - 1]) || code[|code| - 1] == '-';
    TrimTrimmed(code);
    UpperFixed(code);
  }

  /** Every generated code is shaped. */
  lemma {:induction false} TestCodeShaped(now: nat, fraction: string)
    requires forall i :: 0 <= i < |fraction| ==> IsBase36Char(fraction[i])
    ensures Shaped(TestCode(now, fraction))
  {
    var middle := LastNine(Upper(Base36(now)));
    var random := RandomPart(fraction);
    var code := TestCode(now, fraction);
    MiddleChars(now);
    RandomChars(fraction);
    assert code == "XY-" + middle + "-" + random;
    assert forall i :: 3 <= i < 12 ==> code[i] == middle[i - 3];
    assert forall i :: 13 <= i < |code| ==> code[i] == random[i - 13];
  }

  /** A generated code passes the validator exactly when the drawn number renders with
      at least six digits after `0.`; with fewer the code is too short. */
  lemma TestCodeValidIff(now: nat, fraction: string)
    requires forall i :: 0 <= i < |fraction| ==> IsBase36Char(fraction[i])
    ensures IsValidTraceCode(TestCode(now, fraction)) <==> |fraction| >= 6
  {
    TestCodeShaped(now, fraction);
    ShapedValidIff(TestCode(now, fraction));
  }

  /** A concrete short draw: `Math.random()` returning 0.5 renders as `0.i`, and the
      code generated with it fails the validator. */
  lemma ShortDrawInvalid(now: nat)
    ensures !IsValidTraceCode(TestCode(now, "i"))
  {
    TestCodeValidIff(now, "i");
  }

  /** The generator never produces the same code twice from call `start` on. */
  ghost predicate FreshFrom(draw: nat -> string, start: nat) {
    forall j: nat, k: nat :: start <= j < k ==> draw(j) != draw(k)
  }

  /** `c` is what one of the calls from `start` up to `next` returned. */
  ghost predicate Drawn(draw: nat -> string, start: nat, next: nat, c: string) {
    exists k: nat :: start <= k < next && draw(k) == c
  }

  /** The codes of `existing` the generator has yet to produce from call `pos` on. */
  ghost function AheadIn(existing: set<string>, draw: nat -> string, pos: nat): (r: set<string>)
    ensures r <= existing
  {
    set c | c in existing && exists k: nat :: k >= pos && draw(k) == c
  }

  /** Skipping a code already in the set removes it from what lies ahead. */
  lemma AheadShrinks(existing: set<string>, draw: nat -> string, start: nat, pos: nat)
    requires FreshFrom(draw, start)
    requires pos > start && draw(pos - 1) in existing
    ensures AheadIn(existing, draw, pos) < AheadIn(existing, draw, pos - 1)
  {
    var c := draw(pos - 1);
    assert c in AheadIn(existing, draw, pos - 1);
    assert c !in AheadIn(existing, draw, pos);
  }

  class TraceCodeStore {
    /** The `puyuan_used_trace_codes` entry, as a set. */
    var usedCodes: set<string>

    constructor (saved: set<string>)
      ensures usedCodes == saved
    {
      usedCodes := saved;
    }

    predicate IsCodeUsed(code: string)
      reads this
    {
      code in usedCodes
    }

    /** `markCodeAsUsed`: a copy of the set with the code added replaces the set. */
    method MarkCodeAsUsed(code: string)
      modifies this
      ensures usedCodes == old(usedCodes) + {code}
      ensures IsCodeUsed(code)
      ensures old(IsCodeUsed(code)) ==> usedCodes == old(usedCodes)
    {
      var copy := usedCodes;
      copy := copy + {code};
      usedCodes := copy;
    }

    /** `generateTestCodes(count)`, where `draw(k)` is what the `k`-th call of
        `generateTestCode` returns (a `TestCode` of that call's clock reading and random
        draw).  Drawing starts at call `start`; `next` is the call the generator has
        reached. */
    method GenerateTestCodes(count: nat, draw: nat -> string, start: nat)
      returns (codes: seq<string>, next: nat)
      requires FreshFrom(draw, start)
      ensures |codes| == count
      ensures forall j, k :: 0 <= j < k < |codes| ==> codes[j] != codes[k]
      ensures forall j :: 0 <= j < |codes| ==> !IsCodeUsed(codes[j])
      ensures forall j :: 0 <= j < |codes| ==> Drawn(draw, start, next, codes[j])
      ensures next >= start + count
    {
      codes := [];
      var existing := usedCodes;
      next := start;
      ghost var calls: seq<nat> := [];
      var i := 0;
      while i < count
        invariant 0 <= i <= count && |codes| == i && |calls| == i
        invariant next >= start + i
        invariant forall c :: c in existing <==> c in usedCodes || c in codes
        invariant forall j, k :: 0 <= j < k < |codes| ==> codes[j] != codes[k]
        invariant forall j :: 0 <= j < |codes| ==> codes[j] !in usedCodes
        invariant forall j :: 0 <= j < |codes| ==> start <= calls[j] < next && codes[j] == draw(calls[j])
      {
        var code := draw(next);
        next := next + 1;
        while code in existing
          invariant next > start + i && code == draw(next - 1)
          invariant forall j :: 0 <= j < |codes| ==> calls[j] < next
          decreases AheadIn(existing, draw, next - 1)
        {
          AheadShrinks(existing, draw, start, next);
          code := draw(next);
          next := next + 1;
        }
        codes := codes + [code];
        calls := calls + [next - 1];
        existing := existing + {code};
        i := i + 1;
      }
      forall j | 0 <= j < |codes| ensures Drawn(draw, start, next, codes[j]) {
        assert start <= calls[j] < next && draw(calls[j]) == codes[j];
      }
    }
  }
}
