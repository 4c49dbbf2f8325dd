/** The trace-code page of src/pages/TraceCode.tsx: a scanned or typed code is
    normalised and validated, its derived block data is shown, and an unused code earns
    10 credits once and is recorded as used. */
module TracePage {
  import opened Types
  import opened Text
  import opened TraceCodeFormat
  import opened Credits
  import opened TraceCodes

  /** The credit a code earns the first time it is queried. */
  const Reward: int := 10

  datatype Certificate = Certificate(kind: string, hash: string, timestamp: string, status: string)

  /** The mock provenance record shown for a valid code. */
  datatype TraceData = TraceData(
    merchant: string, product: string, blockchainHash: string,
    certificates: seq<Certificate>, trustLevel: string, creditScore: int)

  /** The record the page derives from a normalised code. */
  function TraceDataOf(code: string): (r: TraceData)
    ensures |r.certificates| == 3
    ensures r.blockchainHash == BlockHash(HashSeed(code))
    ensures forall k :: 0 <= k < 3 ==> r.certificates[k].hash == CertificateHash(HashSeed(code), k + 1)
  {
    var seed := HashSeed(code);
    TraceData("诚信鞋业", "莆田工艺鞋", BlockHash(seed),
      [ Certificate("原料来源", CertificateHash(seed, 1), "2024-01-15 10:30:00", "verified"),
        Certificate("制作过程", CertificateHash(seed, 2), "2024-01-16 14:20:00", "verified"),
        Certificate("质检报告", CertificateHash(seed, 3), "2024-01-17 09:15:00", "verified") ],
      "A", 95)
  }

  /** What a query can change outside the page: the used codes, the stored balances and
      the balance on screen. */
  datatype Ledger = Ledger(used: set<string>, stored: map<UserId, int>, credit: int)

  /** The effect of querying `code` with `user` signed in: a valid code not yet used is
      recorded (signed in or not) and earns the reward for a signed-in user; anything
      else changes nothing. */
  function Scan(l: Ledger, user: Option<UserId>, code: string): (r: Ledger)
    ensures !IsValidTraceCode(code) || Normalise(code) in l.used ==> r == l
    ensures IsValidTraceCode(code) ==> r.used == l.used + {Normalise(code)}
    ensures r.used - l.used <= {Normalise(code)}
    ensures user.None? ==> r.credit == l.credit && r.stored == l.stored
    ensures user.Some? ==> r.credit == l.credit + (if r.used == l.used then 0 else Reward)
  {
    var c := Normalise(code);
    if !IsValidTraceCode(code) || c in l.used then l
    else if user.None? then l.(used := l.used + {c})
    else Ledger(l.used + {c}, l.stored[user.value := l.credit + Reward], l.credit + Reward)
  }

  /** Querying the same code again earns nothing and changes nothing. */
  lemma ScanTwice(l: Ledger, user: Option<UserId>, code: string)
    ensures Scan(Scan(l, user, code), user, code) == Scan(l, user, code)
  {
  }

  /** A code scanned while signed out is spent: it earns nothing then, and nothing later
      when the user signs in. */
  lemma SignedOutScanForfeits(l: Ledger, user: UserId, code: string)
    requires IsValidTraceCode(code) && Normalise(code) !in l.used
    ensures Scan(l, None, code).credit == l.credit
    ensures Scan(Scan(l, None, code), Some(user), code) == Scan(l, None, code)
  {
  }

  /** A sequence of queries. */
  function ScanAll(l: Ledger, user: Option<UserId>, codes: seq<string>): Ledger
    decreases |codes|
  {
    if |codes| == 0 then l else ScanAll(Scan(l, user, codes[0]), user, codes[1..])
  }

  lemma SetGrowth(a: set<string>, b: set<string>, c: set<string>)
    requires a <= b <= c
    ensures |c - a| == |c - b| + |b - a|
  {
    assert c - a == (c - b) + (b - a);
  }

  /** One query adds at most its own normalised code, which is then valid. */
  lemma ScanStep(l: Ledger, user: Option<UserId>, code: string)
    ensures l.used <= Scan(l, user, code).used
    ensures |Scan(l, user, code).used - l.used| <= 1
    ensures forall c :: c in Scan(l, user, code).used - l.used ==> Matches(c)
    ensures user.Some? ==>
      Scan(l, user, code).credit == l.credit + Reward * |Scan(l, user, code).used - l.used|
  {
    var r := Scan(l, user, code);
    if r.used != l.used {
      assert r.used - l.used == {Normalise(code)};
    } else {
      assert r.used - l.used == {};
    }
  }

  /** Over any sequence of queries the used set only grows, by valid normalised codes,
      and a signed-in user earns exactly the reward per newly used code. */
  lemma {:induction false} ScanAllEarnsOncePerCode(l: Ledger, user: Option<UserId>, codes: seq<string>)
    ensures l.used <= ScanAll(l, user, codes).used
    ensures forall c :: c in ScanAll(l, user, codes).used - l.used ==> Matches(c)
    ensures user.None? ==> ScanAll(l, user, codes).credit == l.credit
    ensures user.Some? ==>
      ScanAll(l, user, codes).credit == l.credit + Reward * |ScanAll(l, user, codes).used - l.used|
    decreases |codes|
  {
    if |codes| > 0 {
      var l1 := Scan(l, user, codes[0]);
      var r := ScanAll(l1, user, codes[1..]);
      assert r == ScanAll(l, user, codes);
      ScanStep(l, user, codes[0]);
      ScanAllEarnsOncePerCode(l1, user, codes[1..]);
      SetGrowth(l.used, l1.used, r.used);
    }
  }

  class TraceCodePage {
    const credits: CreditStore
    const codes: TraceCodeStore
    var inputCode: string
    var scannedCode: Option<string>
    var isCodeAlreadyUsed: bool
    var traceData: Option<TraceData>
    /** Whether the invalid-code warning shows; the timer that hides it is left out. */
    var invalidCode: bool

    constructor (credits: CreditStore, codes: TraceCodeStore)
      ensures this.credits == credits && this.codes == codes
      ensures inputCode == "" && scannedCode.None? && !isCodeAlreadyUsed
      ensures traceData.None? && !invalidCode
    {
      this.credits := credits;
      this.codes := codes;
      inputCode := "";
      scannedCode := None;
      isCodeAlreadyUsed := false;
      traceData := None;
      invalidCode := false;
    }

    /** The ledger the page reads and writes. */
    function LedgerOf(): Ledger
      reads credits, codes
    {
      Ledger(codes.usedCodes, credits.stored, credits.credit)
    }

    /** The reward and the record of a code not yet used. */
    method Award(codeUpper: string)
      modifies credits, codes
      ensures codes.usedCodes == old(codes.usedCodes) + {codeUpper}
      ensures credits.user == old(credits.user)
      ensures credits.user.None? ==> credits.stored == old(credits.stored) && credits.credit == old(credits.credit)
      ensures credits.user.Some? ==>
        && credits.credit == old(credits.credit) + Reward
        && credits.stored == old(credits.stored)[credits.user.value := old(credits.credit) + Reward]
    {
      credits.AddCredit(Reward);
      codes.MarkCodeAsUsed(codeUpper);
    }

    /** `processTraceCode`. */
    method ProcessTraceCode(code: string)
      modifies this, credits, codes
      ensures LedgerOf() == Scan(old(LedgerOf()), old(credits.user), code)
      ensures credits.user == old(credits.user) && inputCode == old(inputCode)
      ensures !IsValidTraceCode(code) ==>
        && invalidCode && scannedCode.None? && traceData.None? && !isCodeAlreadyUsed
      ensures IsValidTraceCode(code) ==>
        && !invalidCode
        && scannedCode == Some(Normalise(code))
        && isCodeAlreadyUsed == (Normalise(code) in old(codes.usedCodes))
        && traceData == Some(TraceDataOf(Normalise(code)))
    {
      ghost var before := LedgerOf();
      var codeUpper := Normalise(code);
      ValidNormalised(code);
      if !IsValidTraceCode(codeUpper) {
        invalidCode := true;
        scannedCode := None;
        traceData := None;
        isCodeAlreadyUsed := false;
        return;
      }
      invalidCode := false;
      var alreadyUsed := codes.IsCodeUsed(codeUpper);
      scannedCode := Some(codeUpper);
      isCodeAlreadyUsed := alreadyUsed;
      traceData := Some(TraceDataOf(codeUpper));
      if !alreadyUsed {
        Award(codeUpper);
        assert LedgerOf() == Scan(before, credits.user, code);
      } else {
        assert Scan(before, credits.user, code) == before;
      }
    }

    /** `handleQuery`: blank input is ignored; otherwise the trimmed input is processed. */
    method HandleQuery()
      modifies this, credits, codes
      ensures Trim(inputCode) == "" ==>
        && LedgerOf() == old(LedgerOf()) && scannedCode == old(scannedCode)
        && traceData == old(traceData) && isCodeAlreadyUsed == old(isCodeAlreadyUsed)
        && invalidCode == old(invalidCode)
      ensures LedgerOf() == Scan(old(LedgerOf()), old(credits.user), inputCode)
      ensures credits.user == old(credits.user) && inputCode == old(inputCode)
      ensures Trim(inputCode) != "" && IsValidTraceCode(inputCode) ==>
        scannedCode == Some(Normalise(inputCode)) && traceData == Some(TraceDataOf(Normalise(inputCode)))
      ensures Trim(inputCode) != "" && !IsValidTraceCode(inputCode) ==>
        invalidCode && scannedCode.None? && traceData.None?
    {
      var trimmed := Trim(inputCode);
      NormaliseTrimmed(inputCode);
      if trimmed == "" {
        assert !IsValidTraceCode(inputCode);
        return;
      }
      ProcessTraceCode(trimmed);
    }
  }
}
