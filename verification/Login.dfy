/**
 Model of the login run: agentsfleet/src/commands/login.ts with its helpers login-device-flow.ts and
 login-helpers.ts. What is typed, what the server answers and how the file system behaves are arbitrary;
 every statement is about every run.
 */
module Login {
  import opened Wrappers
  import Retry
  import Text
  import VerificationCode

  /** What a request can fail with. */
  datatype Transport = ServerError(status: int, code: string) | NetworkError

  datatype Error =
    | Interrupted | VerificationFailed | DecryptFailed | Request(err: Transport) | MeValidation | Unexpected

  /** What /verify answers; an accepted code comes with a token, unless decryption fails. */
  datatype VerifyReply = Accepted(token: Option<string>) | Refused(err: Transport)

  datatype Flags = Flags(noInput: bool, force: bool, tokenFlag: Option<string>, envToken: Option<string>)

  /** `lines` are the answers of readLine, None for EOF or an interrupt; after the last there is only EOF. */
  datatype World = World(isTTY: bool, piped: string, lines: seq<Option<string>>, readable: bool,
                         session: Option<Transport>, verify: nat -> VerifyReply, pingOk: bool, save: WriteResult,
                         clear: WriteResult)

  datatype Outcome = Success | Failed(err: Error)

  const MAX_CLI_VERIFY_ATTEMPTS := 2
  const ERR_INVALID_VERIFICATION_CODE := "UZ-AUTH-018"

  // ---------------------------------------------------------------- prompts

  predicate SaysYes(line: Option<string>) {
    line.Some? && Text.ToLower(Text.Trim(line.value)) in {"", "y", "yes"}
  }

  function NextLine(lines: seq<Option<string>>): (Option<string>, seq<Option<string>>) {
    if lines == [] then (None, []) else (lines[0], lines[1..])
  }

  predicate AllSixDigits(codes: seq<string>) {
    forall i :: 0 <= i < |codes| ==> VerificationCode.IsSixDigits(codes[i])
  }

  /** A typed line, trimmed, if it is a code. */
  function AsCode(line: string): (code: Option<string>)
    ensures code.Some? ==> VerificationCode.IsSixDigits(code.value)
  {
    var typed := Text.Trim(line);
    if VerificationCode.IsSixDigits(typed) then Some(typed) else None
  }

  /** The six-digit codes typed before the input ends; every other line is asked for again. */
  function Codes(lines: seq<Option<string>>): seq<string> {
    if lines == [] || lines[0].None? then []
    else
      var code := AsCode(lines[0].value);
      if code.Some? then [code.value] + Codes(lines[1..]) else Codes(lines[1..])
  }

  lemma {:induction false} CodesAreSixDigits(lines: seq<Option<string>>)
    ensures AllSixDigits(Codes(lines))
  {
    if lines != [] && lines[0].Some? {
      CodesAreSixDigits(lines[1..]);
      var code, rest := AsCode(lines[0].value), Codes(lines[1..]);
      assert Codes(lines) == if code.Some? then [code.value] + rest else rest;
      if code.Some? {
        OneMoreCode(code.value, rest);
      }
    }
  }

  lemma OneMoreCode(code: string, codes: seq<string>)
    requires VerificationCode.IsSixDigits(code) && AllSixDigits(codes)
    ensures AllSixDigits([code] + codes)
  {
  }

  method PromptVerificationCode(lines: seq<Option<string>>)
    returns (code: Option<string>, rest: seq<Option<string>>)
    ensures Codes(lines) == if code.Some? then [code.value] + Codes(rest) else []
    ensures code.Some? ==> |rest| < |lines|
  {
    rest := lines;
    while true
      invariant Codes(lines) == Codes(rest) && |rest| <= |lines|
      decreases |rest|
    {
      var (raw, more) := NextLine(rest);
      if raw.None? {
        return None, more;
      }
      code := AsCode(raw.value);
      if code.Some? {
        return code, more;
      }
      rest := more;
    }
  }

  // ---------------------------------------------------------------- verification

  /** Any 400 but a malformed code counts as a wrong code. */
  function MapVerifyFailure(err: Transport): Error {
    if err.ServerError? && err.status == 400 && err.code != ERR_INVALID_VERIFICATION_CODE then VerificationFailed
    else Request(err)
  }

  /** The token, or the error. */
  datatype Verified = Token(token: string) | NotVerified(err: Error)

  function Verify(reply: VerifyReply): Verified {
    match reply
    case Accepted(Some(token)) => Token(token)
    case Accepted(None) => NotVerified(DecryptFailed)
    case Refused(err) => NotVerified(MapVerifyFailure(err))
  }

  /** The rest of the verification with `strikes` left, `sent` already submitted and `codes` to come. */
  function VerifyFrom(w: World, codes: seq<string>, strikes: nat, sent: seq<string>): (Verified, seq<string>)
    requires strikes >= 1
    decreases strikes
  {
    if codes == [] then (NotVerified(Interrupted), sent)
    else
      var result := Verify(w.verify(|sent|));
      var sent1 := sent + [codes[0]];
      if result != NotVerified(VerificationFailed) || strikes == 1 then (result, sent1)
      else VerifyFrom(w, codes[1..], strikes - 1, sent1)
  }

  function Verification(w: World, lines: seq<Option<string>>, noInput: bool): (Verified, seq<string>) {
    if noInput then (NotVerified(Interrupted), []) else VerifyFrom(w, Codes(lines), MAX_CLI_VERIFY_ATTEMPTS, [])
  }

  method VerifyAndDecryptWithRetry(w: World, lines: seq<Option<string>>, noInput: bool)
    returns (result: Verified, sent: seq<string>)
    ensures (result, sent) == Verification(w, lines, noInput)
  {
    sent := [];
    if noInput {
      return NotVerified(Interrupted), sent;
    }
    var strikesLeft := MAX_CLI_VERIFY_ATTEMPTS;
    var rest := lines;
    while true
      invariant strikesLeft >= 1
      invariant Verification(w, lines, noInput) == VerifyFrom(w, Codes(rest), strikesLeft, sent)
      decreases strikesLeft
    {
      var code, more := PromptVerificationCode(rest);
      assert code.Some? ==> Codes(rest)[1..] == Codes(more);
      if code.None? {
        return NotVerified(Interrupted), sent;
      }
      result := Verify(w.verify(|sent|));
      sent := sent + [code.value];
      if result.Token? || result.err != VerificationFailed {
        return result, sent;
      }
      strikesLeft := strikesLeft - 1;
      if strikesLeft <= 0 {
        return result, sent;
      }
      rest := more;
    }
  }

  // ---------------------------------------------------------------- the run

  /** The token on disk; a truncated file reads as none, and so does an empty token. */
  type Store = Option<string>

  predicate HasToken(store: Store) {
    store.Some? && store.value != ""
  }

  /** None to go on, and the lines left; or the error. */
  function IdempotencyCheck(w: World, force: bool, noInput: bool, store: Store): (Option<Error>, seq<Option<string>>) {
    if force then (None, w.lines)
    else if !w.readable then (Some(Unexpected), w.lines)
    else if !HasToken(store) then (None, w.lines)
    else if noInput then (Some(Interrupted), w.lines)
    else
      var (answer, rest) := NextLine(w.lines);
      (if SaysYes(answer) then None else Some(Interrupted), rest)
  }

  function TrimToNone(s: Option<string>): Option<string> {
    if s.Some? && Text.Trim(s.value) != "" then Some(Text.Trim(s.value)) else None
  }

  datatype Direct = Given(token: string) | NotGiven | NoSource

  function ResolveDirectToken(flags: Flags, w: World): Direct {
    if TrimToNone(flags.tokenFlag).Some? then Given(TrimToNone(flags.tokenFlag).value)
    else if TrimToNone(flags.envToken).Some? then Given(TrimToNone(flags.envToken).value)
    else if w.isTTY then NotGiven
    else if TrimToNone(Some(w.piped)).Some? then Given(TrimToNone(Some(w.piped)).value)
    else NoSource
  }

  /** Validated first, then saved. */
  function SaveDirectToken(w: World, store: Store, token: string): (Outcome, Store) {
    if !w.pingOk then (Failed(MeValidation), store)
    else (if w.save.Written? then Success else Failed(Unexpected), Write(store, w.save, Some(token), None))
  }

  /** Saved first, then validated, and cleared again when validation fails. */
  function PersistThenValidate(w: World, store: Store, token: string): (Outcome, Store) {
    var saved := Write(store, w.save, Some(token), None);
    if !w.save.Written? then (Failed(Unexpected), saved)
    else if w.pingOk then (Success, saved)
    else (Failed(MeValidation), Write(saved, w.clear, None, None))
  }

  /** The run after the check: what `direct` and `verification` are is settled. */
  function Finish(w: World, direct: Direct, verification: (Verified, seq<string>), store: Store)
    : (Outcome, Store, seq<string>)
  {
    match direct
    case NoSource => (Failed(Interrupted), store, [])
    case Given(token) =>
      var r := SaveDirectToken(w, store, token);
      (r.0, r.1, [])
    case NotGiven =>
      if w.session.Some? then (Failed(Request(w.session.value)), store, [])
      else
        match verification.0
        case NotVerified(err) => (Failed(err), store, verification.1)
        case Token(token) =>
          var r := PersistThenValidate(w, store, token);
          (r.0, r.1, verification.1)
  }

  /** The whole run: its outcome, the store after it, and the codes submitted. */
  function Run(flags: Flags, w: World, store: Store): (Outcome, Store, seq<string>) {
    var (stop, lines) := IdempotencyCheck(w, flags.force, flags.noInput || !w.isTTY, store);
    if stop.Some? then (Failed(stop.value), store, [])
    else Finish(w, ResolveDirectToken(flags, w), Verification(w, lines, flags.noInput), store)
  }

  /** credentials.json. */
  class Credentials {
    var token: Store

    constructor (token: Store)
      ensures this.token == token
    {
      this.token := token;
    }

    method SaveAccessToken(t: string, result: WriteResult)
      modifies this
      ensures token == Write(old(token), result, Some(t), None)
    {
      token := match result case Written => Some(t) case Untouched => token case Truncated => None;
    }

    method ClearAccessToken(result: WriteResult)
      modifies this
      ensures token == Write(old(token), result, None, None)
    {
      if !result.Untouched? {
        token := None;
      }
    }
  }

  method LoginCore(flags: Flags, w: World, credentials: Credentials) returns (outcome: Outcome, sent: seq<string>)
    modifies credentials
    ensures (outcome, credentials.token, sent) == Run(flags, w, old(credentials.token))
  {
    sent := [];
    var (stop, lines) := IdempotencyCheck(w, flags.force, flags.noInput || !w.isTTY, credentials.token);
    if stop.Some? {
      return Failed(stop.value), sent;
    }
    var direct := ResolveDirectToken(flags, w);
    if direct.NoSource? {
      return Failed(Interrupted), sent;
    }
    if direct.Given? {
      if !w.pingOk {
        return Failed(MeValidation), sent;
      }
      credentials.SaveAccessToken(direct.token, w.save);
      return if w.save.Written? then Success else Failed(Unexpected), sent;
    }
    if w.session.Some? {
      return Failed(Request(w.session.value)), sent;
    }
    var result;
    result, sent := VerifyAndDecryptWithRetry(w, lines, flags.noInput);
    if result.NotVerified? {
      return Failed(result.err), sent;
    }
    credentials.SaveAccessToken(result.token, w.save);
    if !w.save.Written? {
      return Failed(Unexpected), sent;
    }
    if !w.pingOk {
      credentials.ClearAccessToken(w.clear);
      return Failed(MeValidation), sent;
    }
    outcome := Success;
  }

  // ---------------------------------------------------------------- what every run keeps

  /** A status of 400, whatever its code, but that of a malformed one. */
  predicate WrongCode(reply: VerifyReply) {
    && reply.Refused? && reply.err.ServerError?
    && reply.err.status == 400 && reply.err.code != "UZ-AUTH-018"
  }

  /** Exactly such a reply costs a strike. */
  lemma WrongCodeExactlyWhen(reply: VerifyReply)
    ensures Verify(reply) == NotVerified(VerificationFailed) <==> WrongCode(reply)
  {
  }

  /**
   Any other reply ends the verification at once, with strikes left or not and more codes typed or not; a
   malformed code ends it with that error, it is not entered again.
   */
  lemma OtherRepliesEndTheVerification(w: World, codes: seq<string>, strikes: nat, sent: seq<string>)
    requires strikes >= 1 && codes != [] && !WrongCode(w.verify(|sent|))
    ensures VerifyFrom(w, codes, strikes, sent) == (Verify(w.verify(|sent|)), sent + [codes[0]])
    ensures var malformed := ServerError(400, "UZ-AUTH-018");
            w.verify(|sent|) == Refused(malformed) ==>
              VerifyFrom(w, codes, strikes, sent) == (NotVerified(Request(malformed)), sent + [codes[0]])
  {
    WrongCodeExactlyWhen(w.verify(|sent|));
  }

  /** What is true of a verification that began with the codes `sent`: */
  ghost predicate FairVerification(w: World, sent: seq<string>, strikes: nat, result: Verified, all: seq<string>) {
    && |sent| <= |all| <= |sent| + strikes
    && AllSixDigits(all)
    && (forall k :: |sent| <= k < |all| - 1 ==> WrongCode(w.verify(k)))
    && (result.Token? ==> |sent| < |all| && w.verify(|all| - 1) == Accepted(Some(result.token)))
    && (result.NotVerified? && result.err != Interrupted ==> |sent| < |all| && result == Verify(w.verify(|all| - 1)))
  }

  /**
   At most `strikes` more submissions, all of six digits; a further one is made only after a wrong code; and
   the result is what the last submission was answered, unless the input ended.
   */
  lemma {:induction false} VerifyFromIs(w: World, codes: seq<string>, strikes: nat, sent: seq<string>)
    requires strikes >= 1 && AllSixDigits(sent) && AllSixDigits(codes)
    ensures var (result, all) := VerifyFrom(w, codes, strikes, sent);
            FairVerification(w, sent, strikes, result, all)
    decreases strikes
  {
    if codes != [] {
      var sent1 := sent + [codes[0]];
      if WrongCode(w.verify(|sent|)) && strikes > 1 {
        VerifyFromIs(w, codes[1..], strikes - 1, sent1);
      }
    }
  }

  lemma VerificationIsFair(w: World, lines: seq<Option<string>>, noInput: bool)
    ensures var (result, all) := Verification(w, lines, noInput); FairVerification(w, [], 2, result, all)
    ensures noInput ==> Verification(w, lines, noInput) == (NotVerified(Interrupted), [])
  {
    CodesAreSixDigits(lines);
    VerifyFromIs(w, Codes(lines), MAX_CLI_VERIFY_ATTEMPTS, []);
  }

  /** The token a run may store: the one supplied, or the one the server handed out for the last code. */
  predicate Vouched(w: World, direct: Direct, sent: seq<string>, token: string) {
    match direct
    case Given(given) => token == given
    case NotGiven => |sent| > 0 && w.verify(|sent| - 1) == Accepted(Some(token))
    case NoSource => false
  }

  /** The guarantees of a run, for whatever its check, its direct token and its verification were. */
  ghost predicate SafeRun(w: World, direct: Direct, store: Store, outcome: Outcome, after: Store, sent: seq<string>) {
    && |sent| <= 2 && AllSixDigits(sent)
    && (|sent| == 2 ==> WrongCode(w.verify(0)))
    && (outcome == Success ==> w.pingOk && after.Some? && Vouched(w, direct, sent, after.value))
    && (outcome.Failed? ==>
          || after == store
          || after == None
          || (outcome == Failed(MeValidation) && direct.NotGiven? && w.clear.Untouched? && after.Some?
              && Vouched(w, direct, sent, after.value)))
  }

  lemma FinishIsSafe(w: World, direct: Direct, verification: (Verified, seq<string>), store: Store)
    requires FairVerification(w, [], 2, verification.0, verification.1)
    ensures var (outcome, after, sent) := Finish(w, direct, verification, store);
            SafeRun(w, direct, store, outcome, after, sent)
  {
  }

  /**
   For every run: at most two codes are submitted, each of six digits, a second one only after a wrong code.
   Success means that the stored token is the one supplied or handed out for the last code, and that the
   server has just accepted it. After a failure the store is as it was or holds no token, but for one case:
   a device login whose token failed validation and could not be cleared either.
   */
  lemma EveryRunIsSafe(flags: Flags, w: World, store: Store)
    ensures var (outcome, after, sent) := Run(flags, w, store);
            SafeRun(w, ResolveDirectToken(flags, w), store, outcome, after, sent)
  {
    var lines := IdempotencyCheck(w, flags.force, flags.noInput || !w.isTTY, store).1;
    VerificationIsFair(w, lines, flags.noInput);
    FinishIsSafe(w, ResolveDirectToken(flags, w), Verification(w, lines, flags.noInput), store);
  }

  /** The codes submitted are the codes typed, in order. */
  lemma {:induction false} CodesAreSentInOrder(w: World, codes: seq<string>, strikes: nat, sent: seq<string>)
    requires strikes >= 1
    ensures var all := VerifyFrom(w, codes, strikes, sent).1;
            |sent| <= |all| <= |sent| + |codes| && all == sent + codes[..|all| - |sent|]
    decreases strikes
  {
    if codes == [] {
      assert sent + [] == sent;
    } else {
      var sent1 := sent + [codes[0]];
      if WrongCode(w.verify(|sent|)) && strikes > 1 {
        CodesAreSentInOrder(w, codes[1..], strikes - 1, sent1);
      }
    }
  }

  /** Submission `k` is answered with a token, after wrong codes only; `first` is the next one to be made. */
  ghost predicate AcceptedAt(w: World, codes: seq<string>, first: nat, k: nat) {
    && first <= k < first + |codes|
    && Verify(w.verify(k)).Token?
    && forall j :: first <= j < k ==> WrongCode(w.verify(j))
  }

  /** Some submission numbered below `limit` is. */
  ghost predicate SomeAccepted(w: World, codes: seq<string>, first: nat, limit: nat) {
    exists k: nat :: k < limit && AcceptedAt(w, codes, first, k)
  }

  lemma {:induction false} VerifiedExactlyWhen(w: World, codes: seq<string>, strikes: nat, sent: seq<string>)
    requires strikes >= 1
    ensures VerifyFrom(w, codes, strikes, sent).0.Token?
            <==> SomeAccepted(w, codes, |sent|, |sent| + strikes)
    decreases strikes
  {
    if codes != [] {
      var sent1 := sent + [codes[0]];
      if WrongCode(w.verify(|sent|)) {
        forall k: nat ensures AcceptedAt(w, codes, |sent|, k) <==> AcceptedAt(w, codes[1..], |sent1|, k) {
        }
        if strikes > 1 {
          VerifiedExactlyWhen(w, codes[1..], strikes - 1, sent1);
        }
      } else if Verify(w.verify(|sent|)).Token? {
        assert AcceptedAt(w, codes, |sent|, |sent|);
      }
    }
  }

  /**
   Exactly when a login succeeds: it is not stopped at the existing token, the token is written and accepted,
   and it was supplied, or a session opened and one of the first two codes typed was accepted, the other
   one, if it came first, having been wrong.
   */
  lemma SucceedsExactlyWhen(flags: Flags, w: World, store: Store)
    ensures var (stop, lines) := IdempotencyCheck(w, flags.force, flags.noInput || !w.isTTY, store);
            Run(flags, w, store).0 == Success
            <==>
            && stop.None? && w.save.Written? && w.pingOk
            && (|| ResolveDirectToken(flags, w).Given?
                || (&& ResolveDirectToken(flags, w).NotGiven? && w.session.None? && !flags.noInput
                    && SomeAccepted(w, Codes(lines), 0, 2)))
  {
    var (stop, lines) := IdempotencyCheck(w, flags.force, flags.noInput || !w.isTTY, store);
    VerifiedExactlyWhen(w, Codes(lines), MAX_CLI_VERIFY_ATTEMPTS, []);
    FinishSucceeds(w, ResolveDirectToken(flags, w), Verification(w, lines, flags.noInput), store);
  }

  lemma FinishSucceeds(w: World, direct: Direct, verification: (Verified, seq<string>), store: Store)
    ensures Finish(w, direct, verification, store).0 == Success
            <==> && w.save.Written? && w.pingOk
                 && (direct.Given? || (direct.NotGiven? && w.session.None? && verification.0.Token?))
  {
  }

  /** The flag goes before the environment, and the environment before the pipe; blank sources do not count. */
  lemma SourcesInOrder(flags: Flags, w: World)
    ensures ResolveDirectToken(flags, w).NotGiven? ==> w.isTTY
    ensures ResolveDirectToken(flags, w).NotGiven? || ResolveDirectToken(flags, w).NoSource?
            <==> && TrimToNone(flags.tokenFlag).None? && TrimToNone(flags.envToken).None?
                 && (w.isTTY || Text.Trim(w.piped) == "")
    ensures forall token :: TrimToNone(flags.tokenFlag) == Some(token) ==> ResolveDirectToken(flags, w) == Given(token)
    ensures forall token :: TrimToNone(flags.tokenFlag).None? && TrimToNone(flags.envToken) == Some(token) ==>
              ResolveDirectToken(flags, w) == Given(token)
  {
  }

  /** The run gets as far as the prompt for a code. */
  predicate Prompts(flags: Flags, w: World, store: Store) {
    && IdempotencyCheck(w, flags.force, flags.noInput || !w.isTTY, store).0.None?
    && ResolveDirectToken(flags, w).NotGiven? && w.session.None? && !flags.noInput
  }

  /** The codes typed at it. */
  function CodesTyped(flags: Flags, w: World, store: Store): seq<string> {
    Codes(IdempotencyCheck(w, flags.force, flags.noInput || !w.isTTY, store).1)
  }

  /**
   For every run: a first code is submitted exactly if the prompt is reached and a code typed, a second one
   exactly if moreover the first was answered as a wrong code and another is typed, and never a third.
   */
  lemma SubmittedExactlyWhen(flags: Flags, w: World, store: Store)
    ensures var sent, typed := Run(flags, w, store).2, CodesTyped(flags, w, store);
            && (|sent| >= 1 <==> Prompts(flags, w, store) && |typed| >= 1)
            && (|sent| >= 2 <==> Prompts(flags, w, store) && |typed| >= 2 && WrongCode(w.verify(0)))
            && |sent| <= 2
            && sent == typed[..|sent|]
  {
    SentIs(flags, w, store);
    SentExactlyWhen(w, CodesTyped(flags, w, store));
  }

  lemma SentIs(flags: Flags, w: World, store: Store)
    ensures Run(flags, w, store).2
         == if Prompts(flags, w, store) then VerifyFrom(w, CodesTyped(flags, w, store), MAX_CLI_VERIFY_ATTEMPTS, []).1
            else []
  {
    var lines := IdempotencyCheck(w, flags.force, flags.noInput || !w.isTTY, store).1;
    FinishSends(w, ResolveDirectToken(flags, w), Verification(w, lines, flags.noInput), store);
  }

  /** A run that got as far as submitting a code; the answer to the last of them. */
  predicate LastAnswerIs(w: World, sent: seq<string>, reply: VerifyReply) {
    |sent| > 0 && w.verify(|sent| - 1) == reply
  }

  /**
   Exactly when a run fails with a request's error: the session could not be opened and failed so, or the last
   code submitted was answered so, and that was no wrong code.
   */
  lemma RequestFailsExactlyWhen(flags: Flags, w: World, store: Store, err: Transport)
    ensures var (outcome, _, sent) := Run(flags, w, store);
            outcome == Failed(Request(err))
            <==>
            || (&& IdempotencyCheck(w, flags.force, flags.noInput || !w.isTTY, store).0.None?
                && ResolveDirectToken(flags, w).NotGiven? && w.session == Some(err))
            || (LastAnswerIs(w, sent, Refused(err)) && !WrongCode(Refused(err)))
  {
    SentIs(flags, w, store);
    if Prompts(flags, w, store) {
      LastAnswerDecides(w, CodesTyped(flags, w, store), MAX_CLI_VERIFY_ATTEMPTS, []);
    }
  }

  /** And exactly when with a wrong code: the last code submitted was one, and no more could be. */
  lemma WrongCodeFailsExactlyWhen(flags: Flags, w: World, store: Store)
    ensures var (outcome, _, sent) := Run(flags, w, store);
            outcome == Failed(VerificationFailed) <==> |sent| == 2 && WrongCode(w.verify(1))
  {
    SentIs(flags, w, store);
    if Prompts(flags, w, store) {
      LastAnswerDecides(w, CodesTyped(flags, w, store), MAX_CLI_VERIFY_ATTEMPTS, []);
    }
  }

  /** And exactly when with what was answered not being readable: the last code was accepted without a token. */
  lemma DecryptFailsExactlyWhen(flags: Flags, w: World, store: Store)
    ensures var (outcome, _, sent) := Run(flags, w, store);
            outcome == Failed(DecryptFailed) <==> LastAnswerIs(w, sent, Accepted(None))
  {
    SentIs(flags, w, store);
    if Prompts(flags, w, store) {
      LastAnswerDecides(w, CodesTyped(flags, w, store), MAX_CLI_VERIFY_ATTEMPTS, []);
    }
  }

  /**
   Exactly when as interrupted: so at the existing token; or without a terminal and without a token; or where no
   code may be asked for, none is typed, or none after a first that was wrong.
   */
  lemma InterruptedExactlyWhen(flags: Flags, w: World, store: Store)
    ensures var stop := IdempotencyCheck(w, flags.force, flags.noInput || !w.isTTY, store).0;
            var (outcome, _, sent) := Run(flags, w, store);
            outcome == Failed(Interrupted)
            <==>
            || stop == Some(Interrupted)
            || (&& stop.None? && ResolveDirectToken(flags, w) == NoSource)
            || (&& stop.None? && ResolveDirectToken(flags, w) == NotGiven && w.session.None?
                && (flags.noInput || sent == [] || (|sent| == 1 && WrongCode(w.verify(0)))))
  {
    SentIs(flags, w, store);
    if Prompts(flags, w, store) {
      LastAnswerDecides(w, CodesTyped(flags, w, store), MAX_CLI_VERIFY_ATTEMPTS, []);
    }
  }

  /** The result is the last answer, or that the input ended after a wrong code or before any. */
  lemma {:induction false} LastAnswerDecides(w: World, codes: seq<string>, strikes: nat, sent: seq<string>)
    requires strikes >= 1
    ensures var (result, all) := VerifyFrom(w, codes, strikes, sent);
            && |sent| <= |all| <= |sent| + strikes
            && (|all| == |sent| <==> codes == [])
            && (if codes != [] && (|all| == |sent| + strikes || !WrongCode(w.verify(|all| - 1)))
                then AnswerGives(w.verify(|all| - 1), result)
                else result == NotVerified(Interrupted))
    decreases strikes
  {
    if codes != [] {
      WrongCodeExactlyWhen(w.verify(|sent|));
      if WrongCode(w.verify(|sent|)) && strikes > 1 {
        LastAnswerDecides(w, codes[1..], strikes - 1, sent + [codes[0]]);
      }
    }
  }

  predicate AnswerGives(reply: VerifyReply, result: Verified) {
    match reply
    case Accepted(Some(token)) => result == Token(token)
    case Accepted(None) => result == NotVerified(DecryptFailed)
    case Refused(err) => result == NotVerified(if WrongCode(reply) then VerificationFailed else Request(err))
  }

  lemma SentExactlyWhen(w: World, codes: seq<string>)
    ensures var all := VerifyFrom(w, codes, MAX_CLI_VERIFY_ATTEMPTS, []).1;
            && (|all| >= 1 <==> |codes| >= 1)
            && (|all| >= 2 <==> |codes| >= 2 && WrongCode(w.verify(0)))
            && |all| <= 2 && |all| <= |codes| && all == codes[..|all|]
  {
    LastAnswerDecides(w, codes, MAX_CLI_VERIFY_ATTEMPTS, []);
    CodesAreSentInOrder(w, codes, MAX_CLI_VERIFY_ATTEMPTS, []);
    var all := VerifyFrom(w, codes, MAX_CLI_VERIFY_ATTEMPTS, []).1;
    assert [] + codes[..|all|] == codes[..|all|];
    if codes != [] {
      SecondExactlyWhen(w, codes);
    }
  }

  lemma SecondExactlyWhen(w: World, codes: seq<string>)
    requires codes != []
    ensures |VerifyFrom(w, codes, MAX_CLI_VERIFY_ATTEMPTS, []).1| >= 2 <==> |codes| >= 2 && WrongCode(w.verify(0))
  {
    WrongCodeExactlyWhen(w.verify(0));
    var rest := VerifyFrom(w, codes[1..], 1, [codes[0]]).1;
    assert [] + [codes[0]] == [codes[0]];
    assert |rest| == if |codes| >= 2 then 2 else 1;
  }

  lemma FinishSends(w: World, direct: Direct, verification: (Verified, seq<string>), store: Store)
    ensures Finish(w, direct, verification, store).2
         == if direct.NotGiven? && w.session.None? then verification.1 else []
  {
  }

  /**
   The token a run gets as far as writing: the one supplied, if the server accepts it, or the one handed out
   at the prompt. A supplied token is validated before it is written, the other one after.
   */
  function InHand(flags: Flags, w: World, store: Store): Option<string> {
    var (stop, lines) := IdempotencyCheck(w, flags.force, flags.noInput || !w.isTTY, store);
    if stop.Some? then None
    else
      match ResolveDirectToken(flags, w)
      case NoSource => None
      case Given(token) => if w.pingOk then Some(token) else None
      case NotGiven =>
        var result := Verification(w, lines, flags.noInput).0;
        if w.session.None? && result.Token? then Some(result.token) else None
  }

  /** Exactly when without a cause of its own: the store could not be read, or what was in hand not be written. */
  lemma UnexpectedExactlyWhen(flags: Flags, w: World, store: Store)
    ensures Run(flags, w, store).0 == Failed(Unexpected)
            <==>
            || (!flags.force && !w.readable)
            || (InHand(flags, w, store).Some? && !w.save.Written?)
  {
    var (stop, lines) := IdempotencyCheck(w, flags.force, flags.noInput || !w.isTTY, store);
    NoOtherCause(w, Codes(lines), MAX_CLI_VERIFY_ATTEMPTS, []);
  }

  /** Exactly when as refused by the server: a supplied token at once, one handed out once it is written. */
  lemma MeValidationExactlyWhen(flags: Flags, w: World, store: Store)
    ensures Run(flags, w, store).0 == Failed(MeValidation)
            <==>
            && !w.pingOk && IdempotencyCheck(w, flags.force, flags.noInput || !w.isTTY, store).0.None?
            && (|| ResolveDirectToken(flags, w).Given?
                || (InHand(flags, w, store).Some? && w.save.Written?))
  {
    var (stop, lines) := IdempotencyCheck(w, flags.force, flags.noInput || !w.isTTY, store);
    NoOtherCause(w, Codes(lines), MAX_CLI_VERIFY_ATTEMPTS, []);
  }

  lemma NoOtherCause(w: World, codes: seq<string>, strikes: nat, sent: seq<string>)
    requires strikes >= 1
    ensures var result := VerifyFrom(w, codes, strikes, sent).0;
            result.NotVerified? ==> result.err != Unexpected && result.err != MeValidation
  {
    LastAnswerDecides(w, codes, strikes, sent);
  }

  /** The run comes to its write, the write is done, and the token can then not be cleared. */
  predicate LeftBehind(flags: Flags, w: World, store: Store) {
    InHand(flags, w, store).Some? && w.save.Written? && w.clear.Untouched?
  }

  /**
   Exactly when a failed login leaves the store as it was: it had nothing to write, the write did not touch
   the file, or what it left there happens to be what was there.
   */
  lemma FailureKeepsExactlyWhen(flags: Flags, w: World, store: Store)
    requires Run(flags, w, store).0.Failed?
    ensures Run(flags, w, store).1 == store
            <==>
            || InHand(flags, w, store).None?
            || w.save.Untouched?
            || (if LeftBehind(flags, w, store) then store == InHand(flags, w, store) else store == None)
  {
  }

  /** Exactly when it leaves the old token or none: unless another one is left behind. */
  lemma FailureKeepsOrClears(flags: Flags, w: World, store: Store)
    requires Run(flags, w, store).0.Failed?
    ensures Run(flags, w, store).1 == store || Run(flags, w, store).1 == None
            <==> !(LeftBehind(flags, w, store) && InHand(flags, w, store) != store)
  {
  }

  /** What a failed login leaves, in full. */
  lemma FailureLeaves(flags: Flags, w: World, store: Store)
    requires Run(flags, w, store).0.Failed?
    ensures Run(flags, w, store).1
         == if InHand(flags, w, store).None? || w.save.Untouched? then store
            else if LeftBehind(flags, w, store) then InHand(flags, w, store)
            else None
  {
  }

  // What a yes is, character by character.

  predicate IsYes(s: string) {
    || |s| == 0
    || (|s| == 1 && (s[0] == 'y' || s[0] == 'Y'))
    || (|s| == 3 && (s[0] == 'y' || s[0] == 'Y') && (s[1] == 'e' || s[1] == 'E') && (s[2] == 's' || s[2] == 'S'))
  }

  /** A line, and on it nothing, y or yes in any letter case, with white space around it or not. */
  ghost predicate Agrees(line: Option<string>) {
    line.Some? && exists before, yes, after ::
      Text.AllSpace(before) && IsYes(yes) && Text.AllSpace(after) && line.value == before + yes + after
  }

  lemma FoldedYes(s: string)
    ensures Text.ToLower(s) in {"", "y", "yes"} <==> IsYes(s)
  {
    var folded := Text.ToLower(s);
    assert |folded| == |s|;
    if |s| == 1 {
      assert folded == "y" <==> folded[0] == 'y';
    } else if |s| == 3 {
      assert folded == "yes" <==> folded[0] == 'y' && folded[1] == 'e' && folded[2] == 's';
    }
  }

  lemma SaysYesExactlyWhen(line: Option<string>)
    ensures SaysYes(line) <==> Agrees(line)
  {
    if line.Some? {
      if SaysYes(line) {
        var before, after := Text.TrimIs(line.value);
        FoldedYes(Text.Trim(line.value));
        assert IsYes(Text.Trim(line.value));
      }
      if before, yes, after :| Text.AllSpace(before) && IsYes(yes) && Text.AllSpace(after)
                               && line.value == before + yes + after {
        Text.TrimExactly(before, yes, after);
        FoldedYes(yes);
      }
    }
  }

  /**
   How every run begins. With force, or no token, it goes on. With one that cannot be read it fails. With a
   token and no terminal, or with no-input, it is stopped; at a terminal it goes on, with the lines that are
   left, exactly if the first one agrees. A run that is stopped changes nothing and submits nothing.
   */
  lemma RunBegins(flags: Flags, w: World, store: Store)
    ensures var existing := store.Some? && store.value != "";
            var first := if w.lines == [] then None else w.lines[0];
            Run(flags, w, store)
            == if flags.force || (w.readable && !existing) then
                 Finish(w, ResolveDirectToken(flags, w), Verification(w, w.lines, flags.noInput), store)
               else if !w.readable then (Failed(Unexpected), store, [])
               else if flags.noInput || !w.isTTY || !Agrees(first) then (Failed(Interrupted), store, [])
               else Finish(w, ResolveDirectToken(flags, w), Verification(w, w.lines[1..], false), store)
  {
    var first := if w.lines == [] then None else w.lines[0];
    SaysYesExactlyWhen(first);
    if w.lines != [] {
      if Agrees(first) {
        assert NextLine(w.lines) == (first, w.lines[1..]);
      }
    }
  }

  /** An existing token is touched only with --force, or at a terminal after a line that agrees. */
  lemma ExistingTokenNeedsConsent(flags: Flags, w: World, store: Store)
    requires store.Some? && store.value != "" && Run(flags, w, store).1 != store
    ensures flags.force || (!flags.noInput && w.isTTY && w.lines != [] && Agrees(w.lines[0]))
  {
    RunBegins(flags, w, store);
  }

  // What is typed and what is supplied.

  predicate NoEnd(lines: seq<Option<string>>) {
    forall i :: 0 <= i < |lines| ==> lines[i].Some?
  }

  lemma {:induction false} CodesAppend(a: seq<Option<string>>, b: seq<Option<string>>)
    ensures NoEnd(a) ==> Codes(a + b) == Codes(a) + Codes(b)
    ensures !NoEnd(a) ==> Codes(a + b) == Codes(a)
    decreases |a|
  {
    if a == [] {
      assert a + b == b;
    } else {
      assert (a + b)[1..] == a[1..] + b && (a + b)[0] == a[0];
      CodesAppend(a[1..], b);
      assert NoEnd(a) <==> a[0].Some? && NoEnd(a[1..]) by {
        assert a == [a[0]] + a[1..];
      }
    }
  }

  ghost predicate Holds(line: string, code: string) {
    VerificationCode.IsSixDigits(code) && exists before, after ::
      Text.AllSpace(before) && Text.AllSpace(after) && line == before + code + after
  }

  /** A line that is a code with white space around it counts as that code, any other line as nothing. */
  lemma CodesOfOneLine(line: string)
    ensures forall code :: Holds(line, code) ==> Codes([Some(line)]) == [code]
    ensures Codes([Some(line)]) != [] ==> exists code :: Holds(line, code)
  {
    assert [Some(line)][1..] == [];
    assert Codes([Some(line)][1..]) == [];
    var typed := Text.Trim(line);
    assert Codes([Some(line)]) == if VerificationCode.IsSixDigits(typed) then [typed] else [];
    forall code | Holds(line, code) ensures typed == code {
      var before, after :| Text.AllSpace(before) && Text.AllSpace(after) && line == before + code + after;
      Text.TrimExactly(before, code, after);
    }
    var b, a := Text.TrimIs(line);
    if VerificationCode.IsSixDigits(typed) {
      assert Holds(line, typed);
    }
  }

  /** A line that is no code is asked for again: it changes nothing, wherever it comes. */
  lemma OtherLinesAreAskedAgain(a: seq<Option<string>>, line: string, b: seq<Option<string>>)
    requires Codes([Some(line)]) == []
    ensures Codes(a + [Some(line)] + b) == Codes(a + b)
  {
    CodesAppend(a, [Some(line)] + b);
    CodesAppend([Some(line)], b);
    CodesAppend(a, b);
    assert a + ([Some(line)] + b) == a + [Some(line)] + b;
    assert [] + Codes(b) == Codes(b);
  }

  /** The end of the input, or an interrupt, ends the prompt. */
  lemma NothingAfterTheEnd(a: seq<Option<string>>, b: seq<Option<string>>)
    ensures Codes(a + [None] + b) == Codes(a)
  {
    CodesAppend(a, [None]);
    CodesAppend(a + [None], b);
    assert (a + [None])[|a|].None?;
    assert Codes([None]) == [];
  }

  /** A supplied token is taken without the white space around it, whatever supplies it. */
  lemma SuppliedTokenIsTrimmed(flags: Flags, w: World, before: string, token: string, after: string)
    requires Text.AllSpace(before) && Text.AllSpace(after) && Text.Trimmed(token) && token != ""
    ensures flags.tokenFlag == Some(before + token + after) ==> ResolveDirectToken(flags, w) == Given(token)
    ensures flags.tokenFlag.None? && flags.envToken == Some(before + token + after) ==>
              ResolveDirectToken(flags, w) == Given(token)
    ensures flags.tokenFlag.None? && flags.envToken.None? && !w.isTTY && w.piped == before + token + after ==>
              ResolveDirectToken(flags, w) == Given(token)
  {
    Text.TrimExactly(before, token, after);
  }

  /** Without a terminal, or with --no-input, no code is ever submitted. */
  lemma NoTerminalNoCode(flags: Flags, w: World, store: Store)
    requires flags.noInput || !w.isTTY
    ensures Run(flags, w, store).2 == []
  {
    var lines := IdempotencyCheck(w, flags.force, flags.noInput || !w.isTTY, store).1;
    var direct := ResolveDirectToken(flags, w);
    if direct.NotGiven? {
      SourcesInOrder(flags, w);
      VerificationIsFair(w, lines, flags.noInput);
    }
    NothingSentIsNothingSent(w, direct, Verification(w, lines, flags.noInput), store);
  }

  lemma NothingSentIsNothingSent(w: World, direct: Direct, verification: (Verified, seq<string>), store: Store)
    requires direct.NotGiven? ==> verification.1 == []
    ensures Finish(w, direct, verification, store).2 == []
  {
  }

  /**
   For every run that is not stopped at the existing token and whose token the server does not accept: a
   supplied one changes nothing; one handed out at the prompt, once written, costs the old one.
   */
  lemma ValidationOrderMatters(flags: Flags, w: World, store: Store)
    requires IdempotencyCheck(w, flags.force, flags.noInput || !w.isTTY, store).0.None? && !w.pingOk
    ensures ResolveDirectToken(flags, w).Given? ==>
              Run(flags, w, store).0 == Failed(MeValidation) && Run(flags, w, store).1 == store
    ensures InHand(flags, w, store).Some? && w.save.Written? ==>
              && Run(flags, w, store).0 == Failed(MeValidation)
              && Run(flags, w, store).1 == if w.clear.Untouched? then InHand(flags, w, store) else None
  {
  }

  /** A terminal at which the right code is typed, and a server that hands out "new" and then refuses it. */
  function RefusingWorld(): World {
    World(true, "", [Some("123456")], true, None, _ => Accepted(Some("new")), false, Written, Written)
  }

  /** One such run: the old token is gone, the new one was refused. */
  lemma RefusedTokenCostsTheOldOne()
    ensures Run(Flags(false, true, None, None), RefusingWorld(), Some("old"))
         == (Failed(MeValidation), None, ["123456"])
  {
    var flags, w := Flags(false, true, None, None), RefusingWorld();
    VerificationCode.DigitsAreNotTrimmed("123456");
    assert AsCode("123456") == Some("123456");
    assert w.lines[1..] == [];
    assert Codes(w.lines) == ["123456"] + Codes(w.lines[1..]);
    assert [] + ["123456"] == ["123456"];
    assert Verification(w, w.lines, false) == (Token("new"), ["123456"]);
    assert ResolveDirectToken(flags, w) == NotGiven;
  }

  // ---------------------------------------------------------------- what goes over the wire

  /** A submission is one request, and a request is retried: by default two more times. */
  function SubmissionConfig(noRetry: bool): Retry.Config {
    Retry.Resolve(Retry.Options(None, None, None, noRetry, Some("POST"))).value
  }

  /** The POSTs of the first `n` submissions, where attempt `j` of submission `k` is answered `replies(k)(j)`. */
  function Posts(cfg: Retry.Config, replies: nat -> (nat -> Retry.Reply), n: nat): nat {
    if n == 0 then 0 else Posts(cfg, replies, n - 1) + Retry.LastAttempt(Retry.Cli, cfg, replies(n - 1), 1)
  }

  predicate AnyRetried(cfg: Retry.Config, replies: nat -> (nat -> Retry.Reply), n: nat) {
    exists k :: 0 <= k < n && Retry.Retries(Retry.Cli, cfg, replies(k), 1)
  }

  lemma {:induction false} PostsAreBounded(cfg: Retry.Config, replies: nat -> (nat -> Retry.Reply), n: nat)
    requires cfg.maxAttempts >= 1
    ensures n <= Posts(cfg, replies, n) <= n * cfg.maxAttempts
    ensures Posts(cfg, replies, n) > n <==> AnyRetried(cfg, replies, n)
  {
    if n > 0 {
      PostsAreBounded(cfg, replies, n - 1);
      var k := Retry.LastAttempt(Retry.Cli, cfg, replies(n - 1), 1);
      assert k > 1 <==> Retry.Retries(Retry.Cli, cfg, replies(n - 1), 1);
      assert AnyRetried(cfg, replies, n)
             <==> AnyRetried(cfg, replies, n - 1) || Retry.Retries(Retry.Cli, cfg, replies(n - 1), 1);
      assert n * cfg.maxAttempts == (n - 1) * cfg.maxAttempts + cfg.maxAttempts;
    }
  }

  /**
   For every run and every script of replies: six POSTs at most carry codes, at least one for each submission,
   and more than that exactly if retries are on and some submission is first answered by a failure that is
   worth another attempt.
   */
  lemma PostsOfARun(flags: Flags, w: World, store: Store, noRetry: bool, replies: nat -> (nat -> Retry.Reply))
    ensures var n, cfg := |Run(flags, w, store).2|, SubmissionConfig(noRetry);
            && n <= Posts(cfg, replies, n) <= 6
            && (Posts(cfg, replies, n) > n
                <==> && !noRetry
                     && exists k :: && 0 <= k < n && replies(k)(1).Failure?
                                    && Retry.Retryable(Retry.Cli, "POST", replies(k)(1).err))
  {
    var n, cfg := |Run(flags, w, store).2|, SubmissionConfig(noRetry);
    SubmittedExactlyWhen(flags, w, store);
    PostsAreBounded(cfg, replies, n);
    forall k | 0 <= k < n
      ensures Retry.Retries(Retry.Cli, cfg, replies(k), 1)
              <==> && !noRetry && replies(k)(1).Failure?
                   && Retry.Retryable(Retry.Cli, "POST", replies(k)(1).err)
    {
      if replies(k)(1).Failure? {
        Retry.RetriedExactlyWhen(Retry.Cli, cfg, 1, replies(k)(1).err);
      }
    }
  }
}
