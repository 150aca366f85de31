/** A wallet's session among free interleavings: what changes the record of its
    token, and that the session keeps up with it. */
module WalletRuns {
  import opened Wrappers
  import opened Jose
  import opened Protocol
  import opened Machine
  import opened Invariants
  import opened NonceTheorems
  import opened Client
  import Base64Url

  // A rotation on behalf of a request for this token.
  ghost predicate Rotation(c: Config, s: Sys, a: Action, token: string)
    requires Enabled(c, s, a)
  {
    a.RotateNonce? && s.serving[a.tid].token == token
  }

  // Of all steps, only these touch a stored record.
  lemma RecordTouched(e: Env, c: Config, s: Sys, a: Action, token: string)
    requires Inv(e, c, s) && Enabled(c, s, a) && token in s.tokens
    ensures var s' := Apply(e, c, s, a);
            && token in s'.tokens
            && s'.tokens[token] ==
               if Rotation(c, s, a, token)
               then s.tokens[token].(cNonce := Base64Url.Encode(a.nonceBytes), cNonceExpiresAt := s.now + c.cNonceTtl)
               else s.tokens[token]
  {
    hide Inv, DoBeginOffer, DoStoreOffer, DoConsume, DoMake, DoBurn, DoGetRecord, DoResolve, DoProve, DoFactory,
         Base64Url.Encode;
    if IsRequestStep(a) {
      RequestServes(e, c, s, a);
    } else if a.StoreRecord? {
      StoreRecordInv(e, c, s, a.tid);
    } else if !a.RotateNonce? && !a.DrawRejection? {
      UntouchedStep(e, c, s, a);
    }
  }

  // ----- nobody else presents the token -----

  ghost predicate Idle(serving: map<nat, Serving>, token: string) {
    forall t :: t in serving && !serving[t].Rejected? ==> serving[t].token != token
  }

  ghost predicate NeverPresented(run: seq<Action>, token: string) {
    forall i :: 0 <= i < |run| && run[i].GetRecord? ==> PresentedToken(run[i].auth) != Some(token)
  }

  lemma StaysIdle(e: Env, c: Config, s: Sys, a: Action, token: string)
    requires Enabled(c, s, a) && Idle(s.serving, token)
    requires a.GetRecord? ==> PresentedToken(a.auth) != Some(token)
    ensures Idle(Apply(e, c, s, a).serving, token)
  {
    hide PresentedToken, Apply, Enabled;
    if IsRequestStep(a) {
      RequestServes(e, c, s, a);
    } else if a.StoreRecord? {
      StoreServes(e, c, s, a.tid);
    } else if a.RotateNonce? || a.DrawRejection? {
      FinishServes(e, c, s, a);
    } else {
      UntouchedStep(e, c, s, a);
    }
  }

  lemma FinishServes(e: Env, c: Config, s: Sys, a: Action)
    requires Enabled(c, s, a) && (a.RotateNonce? || a.DrawRejection?)
    ensures Apply(e, c, s, a).serving == s.serving - {a.tid}
  {
    hide Base64Url.Encode, Rotate;
  }

  // While no request presents a token, whatever else interleaves leaves its
  // record as it is.
  lemma {:induction false} RecordUndisturbed(e: Env, c: Config, s: Sys, run: seq<Action>, token: string)
    requires Inv(e, c, s) && Runs(e, c, s, run) && token in s.tokens
    requires Idle(s.serving, token) && NeverPresented(run, token)
    ensures var s' := Exec(e, c, s, run);
            token in s'.tokens && s'.tokens[token] == s.tokens[token] && Idle(s'.serving, token)
    decreases |run|
  {
    hide Inv, Enabled, Apply, PresentedToken;
    if run != [] {
      StepInv(e, c, s, run[0]);
      StaysIdle(e, c, s, run[0], token);
      RecordTouched(e, c, s, run[0], token);
      NotRotated(c, s, run[0], token);
      RecordUndisturbed(e, c, Apply(e, c, s, run[0]), run[1..], token);
    }
  }

  lemma NotRotated(c: Config, s: Sys, a: Action, token: string)
    requires Enabled(c, s, a) && Idle(s.serving, token)
    ensures !Rotation(c, s, a, token)
  {
  }

  // ----- the holder's own requests among everything else -----

  // What the holder hears of one step: the response that a rotation for its
  // token sends, received some time later. Refusals change no session.
  ghost function Hear(c: Config, s: Sys, a: Action, session: Session, delay: Bytes -> nat): Session
    requires Enabled(c, s, a)
  {
    if Rotation(c, s, a, session.accessToken) then
      var reply := Delivered("", false, Base64Url.Encode(a.nonceBytes), c.cNonceTtl);
      AfterRequest(session, "", reply, s.now + delay(a.nonceBytes)).value.session
    else session
  }

  ghost function HearAll(e: Env, c: Config, s: Sys, run: seq<Action>, session: Session, delay: Bytes -> nat): Session
    requires Runs(e, c, s, run)
    decreases |run|
  {
    if run == [] then session
    else HearAll(e, c, Apply(e, c, s, run[0]), run[1..], Hear(c, s, run[0], session, delay), delay)
  }

  // The session stays in agreement with the record over every run: its own
  // requests may overlap each other and anything else, as long as their
  // responses arrive in the order of the rotations.
  lemma {:induction false} AgreementOverRuns(e: Env, c: Config, s: Sys, run: seq<Action>, session: Session, delay: Bytes -> nat)
    requires Inv(e, c, s) && Runs(e, c, s, run) && Agrees(c, s.tokens, session)
    ensures var session' := HearAll(e, c, s, run, session, delay);
            && session'.accessToken == session.accessToken && session'.offer == session.offer
            && Agrees(c, Exec(e, c, s, run).tokens, session')
    decreases |run|
  {
    hide Inv, Enabled, Apply, Hear, Agrees;
    if run != [] {
      StepInv(e, c, s, run[0]);
      StepHeard(e, c, s, run[0], session, delay);
      AgreementOverRuns(e, c, Apply(e, c, s, run[0]), run[1..], Hear(c, s, run[0], session, delay), delay);
    }
  }

  lemma StepHeard(e: Env, c: Config, s: Sys, a: Action, session: Session, delay: Bytes -> nat)
    requires Inv(e, c, s) && Enabled(c, s, a) && Agrees(c, s.tokens, session)
    ensures var session' := Hear(c, s, a, session, delay);
            && session'.accessToken == session.accessToken && session'.offer == session.offer
            && Agrees(c, Apply(e, c, s, a).tokens, session')
  {
    hide Inv, Apply, Base64Url.Encode;
    RecordTouched(e, c, s, a, session.accessToken);
    if Rotation(c, s, a, session.accessToken) {
      TokenLengths(a.nonceBytes);
    }
  }
}
