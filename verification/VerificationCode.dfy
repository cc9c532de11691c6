/**
 Model of generateVerificationCode in ui/packages/app/lib/auth/cli-flow.ts, a rejection sampler, and of
 the six-digit check of agentsfleet/src/commands/login-device-flow.ts that its codes must pass.
 */
module VerificationCode {
  import opened Decimal
  import Text

  const DIGITS := 6
  const MODULUS := 1_000_000
  const UINT32_LIMIT := 0x1_0000_0000
  const REJECT_THRESHOLD := UINT32_LIMIT - UINT32_LIMIT % MODULUS

  type Uint32 = r: int | 0 <= r < UINT32_LIMIT

  function PadStart(s: string, width: nat): string
    decreases width - |s|
  {
    if |s| >= width then s else PadStart(['0'] + s, width)
  }

  function Code(raw: Uint32): string {
    PadStart(Numeral(raw % MODULUS), DIGITS)
  }

  predicate Accepted(raw: Uint32) {
    raw < REJECT_THRESHOLD
  }

  /** `/^\d{6}$/`, the check on the other side. */
  predicate IsSixDigits(s: string) {
    |s| == 6 && AllDigits(s)
  }

  ghost predicate FirstAccepted(draws: nat -> Uint32, k: nat) {
    Accepted(draws(k)) && forall j :: 0 <= j < k ==> !Accepted(draws(j))
  }

  /** `draws` is the random source; it is read until a draw is accepted. */
  method GenerateVerificationCode(draws: nat -> Uint32, ghost enough: nat) returns (code: string)
    requires Accepted(draws(enough))
    ensures IsSixDigits(code)
    ensures exists k: nat :: k <= enough && FirstAccepted(draws, k) && code == Code(draws(k))
  {
    var k := 0;
    var raw := draws(0);
    while raw >= REJECT_THRESHOLD
      invariant k <= enough && raw == draws(k)
      invariant forall j :: 0 <= j < k ==> !Accepted(draws(j))
      decreases enough - k
    {
      k := k + 1;
      raw := draws(k);
    }
    assert FirstAccepted(draws, k);
    CodeIsSixDigits(raw);
    code := PadStart(Numeral(raw % MODULUS), DIGITS);
  }

  // ---------------------------------------------------------------- codes

  lemma {:induction false} NumeralLength(n: nat, width: nat)
    requires 1 <= width && n < Pow10(width)
    ensures |Numeral(n)| <= width
    decreases width
  {
    if n >= 10 {
      NumeralLength(n / 10, width - 1);
    }
  }

  function Pow10(n: nat): nat {
    if n == 0 then 1 else 10 * Pow10(n - 1)
  }

  lemma {:induction false} ValueOfLeadingZero(s: string)
    requires AllDigits(s)
    ensures AllDigits(['0'] + s) && Value(['0'] + s) == Value(s)
    decreases |s|
  {
    var z := ['0'] + s;
    if s == "" {
      assert z[..0] == "";
    } else {
      ValueOfLeadingZero(s[..|s| - 1]);
      assert z[..|z| - 1] == ['0'] + s[..|s| - 1];
    }
  }

  lemma {:induction false} PadStartKeepsValue(s: string, width: nat)
    requires AllDigits(s) && |s| <= width
    ensures |PadStart(s, width)| == width && AllDigits(PadStart(s, width))
    ensures Value(PadStart(s, width)) == Value(s)
    decreases width - |s|
  {
    if |s| < width {
      ValueOfLeadingZero(s);
      PadStartKeepsValue(['0'] + s, width);
    }
  }

  /** Every code is six digits and denotes its residue. */
  lemma CodeIsSixDigits(raw: Uint32)
    ensures IsSixDigits(Code(raw)) && Value(Code(raw)) == raw % MODULUS
  {
    assert Pow10(2) == 100 && Pow10(4) == 10_000;
    assert Pow10(6) == MODULUS;
    NumeralLength(raw % MODULUS, 6);
    PadStartKeepsValue(Numeral(raw % MODULUS), 6);
    ValueOfNumeral(raw % MODULUS);
  }

  lemma {:induction false} ValueIsBelow(s: string)
    requires AllDigits(s)
    ensures Value(s) < Pow10(|s|)
    decreases |s|
  {
    if s != "" {
      ValueIsBelow(s[..|s| - 1]);
    }
  }

  lemma {:induction false} ValueIsInjective(s: string, t: string)
    requires AllDigits(s) && AllDigits(t) && |s| == |t| && Value(s) == Value(t)
    ensures s == t
    decreases |s|
  {
    if s != "" {
      ValueIsInjective(s[..|s| - 1], t[..|t| - 1]);
      assert s == s[..|s| - 1] + [s[|s| - 1]] && t == t[..|t| - 1] + [t[|t| - 1]];
    }
  }

  /** A draw gives a six-digit code exactly if its residue is the number the code denotes. */
  lemma CodeOf(raw: Uint32, code: string)
    requires IsSixDigits(code)
    ensures Code(raw) == code <==> raw % MODULUS == Value(code)
  {
    CodeIsSixDigits(raw);
    if raw % MODULUS == Value(code) {
      ValueIsInjective(Code(raw), code);
    }
  }

  // ---------------------------------------------------------------- uniformity

  /** The numbers below `blocks` times the modulus with residue `c`. */
  ghost function Preimages(c: nat, blocks: nat): set<int>
  {
    set r | 0 <= r < blocks * MODULUS && r % MODULUS == c
  }

  lemma {:induction false} OnePreimagePerBlock(c: nat, blocks: nat)
    requires c < MODULUS
    ensures |Preimages(c, blocks)| == blocks
  {
    if blocks == 0 {
      assert Preimages(c, 0) == {};
    } else {
      OnePreimagePerBlock(c, blocks - 1);
      var r := (blocks - 1) * MODULUS + c;
      assert Preimages(c, blocks) == Preimages(c, blocks - 1) + {r};
      assert r !in Preimages(c, blocks - 1);
    }
  }

  /** The threshold is the largest multiple of the modulus not above 2^32. */
  lemma ThresholdIsLargestMultiple(m: nat)
    ensures REJECT_THRESHOLD == 4294 * MODULUS && REJECT_THRESHOLD <= UINT32_LIMIT
    ensures m * MODULUS <= UINT32_LIMIT ==> m * MODULUS <= REJECT_THRESHOLD
  {
  }

  /** The accepted draws that give a code. */
  ghost function DrawsOf(code: string): set<int>
  {
    set r: Uint32 | 0 <= r < UINT32_LIMIT && Accepted(r) && Code(r) == code
  }

  /** Exactly uniform: every six-digit code comes from 4294 of the accepted draws. */
  lemma EveryCodeIsEquallyLikely(code: string)
    requires IsSixDigits(code)
    ensures |DrawsOf(code)| == 4294
  {
    assert Pow10(2) == 100 && Pow10(4) == 10_000;
    ValueIsBelow(code);
    OnePreimagePerBlock(Value(code), 4294);
    forall r ensures r in DrawsOf(code) <==> r in Preimages(Value(code), 4294) {
      if 0 <= r < UINT32_LIMIT {
        CodeOf(r, code);
      }
    }
    assert DrawsOf(code) == Preimages(Value(code), 4294);
  }

  /** Without the rejection the codes below 967296 would come up once more often than the rest. */
  lemma RejectionIsNeeded(code: string)
    requires IsSixDigits(code)
    ensures |set r: Uint32 | 0 <= r < UINT32_LIMIT && Code(r) == code| == if Value(code) < 967_296 then 4295 else 4294
  {
    assert Pow10(2) == 100 && Pow10(4) == 10_000;
    ValueIsBelow(code);
    var all := set r: Uint32 | 0 <= r < UINT32_LIMIT && Code(r) == code;
    var blocks := if Value(code) < 967_296 then 4295 else 4294;
    OnePreimagePerBlock(Value(code), blocks);
    forall r ensures r in all <==> r in Preimages(Value(code), blocks) {
      if 0 <= r < UINT32_LIMIT {
        CodeOf(r, code);
      }
      BelowTheLimit(r, Value(code), blocks);
    }
    assert all == Preimages(Value(code), blocks);
  }

  lemma BelowTheLimit(r: int, c: nat, blocks: nat)
    requires blocks == if c < 967_296 then 4295 else 4294
    ensures 0 <= r && r % MODULUS == c ==> (r < UINT32_LIMIT <==> r < blocks * MODULUS)
  {
  }

  lemma DigitsAreNotTrimmed(s: string)
    requires AllDigits(s)
    ensures Text.Trim(s) == s
  {
  }

  /** So every generated code is accepted by the prompt that trims and checks what is typed. */
  lemma CodePassesPrompt(raw: Uint32)
    ensures Text.Trim(Code(raw)) == Code(raw) && IsSixDigits(Text.Trim(Code(raw)))
  {
    CodeIsSixDigits(raw);
    DigitsAreNotTrimmed(Code(raw));
  }
}
