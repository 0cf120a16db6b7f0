/** One look at the tunnel through gluetun's control server. */
module Sampling {
  import opened Common

  /** failed is set, and error says why, when the tunnel could not be positively confirmed healthy. */
  datatype TunnelState = TunnelState(
    healthy: bool, status: string, publicIPKnown: bool, publicIPPresent: bool, failed: bool, error: string)

  const UNREACHABLE := TunnelState(false, "", false, false, true, "")

  /** What the server answered: the status on the modern and on the legacy path
      (None for an error or an empty status) and the public IP (None when unreadable);
      reason is the text of the error that this adds up to, if any. */
  datatype Replies = Replies(
    urlGiven: bool, modern: Option<string>, legacy: Option<string>, ip: Option<string>, reason: string)

  function FoldCase(c: char): char {
    if 'A' <= c <= 'Z' then c + ('a' - 'A') else c
  }

  predicate EqualFold(s: string, t: string) {
    |s| == |t| && forall i | 0 <= i < |s| :: FoldCase(s[i]) == FoldCase(t[i])
  }

  /** The first usable status. */
  function StatusOf(r: Replies): Option<string> {
    if !r.urlGiven then None else if r.modern.Some? then r.modern else r.legacy
  }

  /** Running, and not known to be without a public IP. */
  predicate Alive(r: Replies) {
    StatusOf(r).Some? && EqualFold(StatusOf(r).value, "running") && r.ip != Some("")
  }

  method CheckTunnel(r: Replies) returns (state: TunnelState)
    ensures state.healthy <==> Alive(r)
    ensures state.failed <==> !state.healthy
    ensures state.publicIPKnown <==> StatusOf(r).Some? && EqualFold(StatusOf(r).value, "running") && r.ip.Some?
    ensures state.publicIPPresent <==> state.publicIPKnown && r.ip.value != ""
    ensures state.error == if state.failed then r.reason else ""
    ensures state.status == if StatusOf(r).Some? then StatusOf(r).value else ""
  {
    if !r.urlGiven {
      return UNREACHABLE.(error := r.reason);
    }
    var replies := [r.modern, r.legacy];
    for i := 0 to |replies|
      invariant forall j | 0 <= j < i :: replies[j].None?
    {
      if replies[i].Some? {
        var status := replies[i].value;
        assert i == 0 || (i == 1 && replies[0].None?);
        assert StatusOf(r) == Some(status);
        state := TunnelState(false, status, false, false, false, "");
        if !EqualFold(status, "running") {
          return state.(failed := true, error := r.reason);
        }
        if r.ip.None? {
          return state.(healthy := true);
        }
        state := state.(publicIPKnown := true, publicIPPresent := r.ip.value != "");
        if !state.publicIPPresent {
          return state.(failed := true, error := r.reason);
        }
        return state.(healthy := true);
      }
    }
    assert replies[0].None? && replies[1].None?;
    return UNREACHABLE.(error := r.reason);
  }

  /** A readable but empty public IP is never healthy, however the status flaps;
      an unreadable one leaves the decision to the status alone. */
  lemma EmptyIPIsNeverAlive(r: Replies, flapping: Replies)
    requires r.ip == Some("") && flapping == r.(modern := flapping.modern, legacy := flapping.legacy)
    ensures !Alive(flapping)
    ensures Alive(r.(ip := None)) <==> StatusOf(r).Some? && EqualFold(StatusOf(r).value, "running")
  {
  }

  /** The first usable status decides: a readable modern one whatever the legacy path
      answers, and the legacy one when there is no modern one; none is never healthy. */
  lemma FirstStatusDecides(r: Replies, legacy: Option<string>)
    ensures r.modern.Some? ==> (Alive(r) <==> Alive(r.(legacy := legacy)))
    ensures r.modern.Some? && r.urlGiven ==> (Alive(r) <==> EqualFold(r.modern.value, "running") && r.ip != Some(""))
    ensures r.modern.None? && r.legacy.Some? && r.urlGiven ==>
              (Alive(r) <==> EqualFold(r.legacy.value, "running") && r.ip != Some(""))
    ensures !r.urlGiven || (r.modern.None? && r.legacy.None?) ==> !Alive(r)
  {
  }

  /** The comparison ignores the case of letters and nothing else. */
  lemma RunningInAnyCase()
    ensures EqualFold("running", "running") && EqualFold("Running", "running") && EqualFold("RUNNING", "running")
    ensures !EqualFold("stopped", "running") && !EqualFold("running ", "running") && !EqualFold("", "running")
  {
    assert |"stopped"| == 7 && FoldCase("stopped"[0]) != FoldCase("running"[0]);
  }
}
