/** Approval decisions (meldekanal.ts): outcomes, the allow test, and normalisation of untyped answers. */
module Meldekanal {
  import opened Prelude

  datatype ApprovalOutcome = Approved | Rejected | DeniedNoChannel | Timeout | Error

  datatype Decision = Decision(outcome: ApprovalOutcome, channelId: Option<string>, note: Option<string>)

  /** The only test of a decision: nothing but `approved` lets a call through. */
  predicate IsApproved(d: Decision) { d.outcome == Approved }

  function ParseOutcome(s: string): Option<ApprovalOutcome> {
    if s == "approved" then Some(Approved)
    else if s == "rejected" then Some(Rejected)
    else if s == "denied-no-channel" then Some(DeniedNoChannel)
    else if s == "timeout" then Some(Timeout)
    else if s == "error" then Some(Error)
    else None
  }

  /** Turns whatever a channel returned into a decision about the channel that was asked. */
  function NormalizeDecision(raw: Json, channelId: string): Decision {
    match Property(raw, "outcome")
    case Some(JStr(s)) =>
      (match ParseOutcome(s)
       case Some(o) =>
         Decision(o, Some(channelId),
                  match Property(raw, "note")
                  case Some(JStr(note)) => Some(note)
                  case _ => None)
       case None => Decision(Error, Some(channelId), Some("channel returned unknown outcome")))
    case _ => Decision(Error, Some(channelId), Some("channel returned no usable outcome"))
  }

  /** Normalisation never invents an approval: only an own `outcome` of exactly "approved" gives one. */
  lemma ApprovedOnlyIfSaid(raw: Json, channelId: string)
    ensures IsApproved(NormalizeDecision(raw, channelId)) <==> Property(raw, "outcome") == Some(JStr("approved"))
    ensures NormalizeDecision(raw, channelId).channelId == Some(channelId)
  {
  }

  /** What is not one of the five outcomes becomes an error that says so, and whatever note came with it is dropped. */
  lemma UnknownOutcomeIsAnError(raw: Json, channelId: string)
    requires forall s :: s in {"approved", "rejected", "denied-no-channel", "timeout", "error"} ==>
               Property(raw, "outcome") != Some(JStr(s))
    ensures var d := NormalizeDecision(raw, channelId);
            && d.outcome == Error && d.channelId == Some(channelId)
            && d.note in {Some("channel returned unknown outcome"), Some("channel returned no usable outcome")}
  {
  }

  /** Every outcome is the one that was said, anything else is an error; a note is kept if the outcome is known. */
  lemma OutcomeIsWhatWasSaid(raw: Json, channelId: string)
    ensures var d := NormalizeDecision(raw, channelId);
            var said := Property(raw, "outcome");
            && (d.outcome == Rejected <==> said == Some(JStr("rejected")))
            && (d.outcome == DeniedNoChannel <==> said == Some(JStr("denied-no-channel")))
            && (d.outcome == Timeout <==> said == Some(JStr("timeout")))
            && (d.outcome == Approved <==> said == Some(JStr("approved")))
            && (d.outcome != Error || said == Some(JStr("error")) ==>
                  forall n :: d.note == Some(n) <==> Property(raw, "note") == Some(JStr(n)))
  {
  }
}
