// The two-step reset over whole runs: what a clearing of the bracket is worth having cost.

module HubReset {
  import opened Types
  import opened BracketSpec
  import opened BracketOps
  import opened CourtSpec
  import opened HubSpec
  import opened HubRuns
  import opened HubPersistence

  function ReplyTo(h: Hub, ev: Event): Reply
    requires ev.ResetRequest?
  {
    OnReset(h, ev.owner, ev.socket, ev.confirm, ev.newToken, ev.now).1
  }

  predicate Issues(h: Hub, ev: Event) { ev.ResetRequest? && ReplyTo(h, ev).Token? }

  // A reset request that clears the bracket.
  predicate Clears(h: Hub, ev: Event) { ev.ResetRequest? && ReplyTo(h, ev) == Done }

  // The server just before event k of a run.
  function Before(start: Hub, evs: seq<Event>, k: nat): (h: Hub)
    requires EngineOk(start.bracket) && k <= |evs|
    ensures EngineOk(h.bracket)
  {
    if k == 0 then start
    else
      EventIsEngineRun(Before(start, evs, k - 1), evs[k - 1]);
      Handle(Before(start, evs, k - 1), evs[k - 1])
  }

  predicate Waits(h: Hub, socket: string, p: PendingReset) { socket in h.pending && h.pending[socket] == p }

  lemma DecisionKeepsTokens(h: Hub, e: Option<Bracket>)
    ensures AfterDecision(h, e).pending == h.pending
  {
  }

  lemma RequestKeepsTokens(h: Hub, owner: bool, id: string, op: MatchOp)
    requires EngineOk(h.bracket)
    ensures OnEngine(h, owner, id, op).0.pending == h.pending
  {
    DecisionKeepsTokens(h, Step(h.bracket, OnMatch(id, op)).bracket);
  }

  lemma ResultKeepsTokens(h: Hub, courtId: string, name: string)
    requires EngineOk(h.bracket)
    ensures CourtMatchWon(h, courtId, name).0.pending == h.pending
  {
    forall e
      ensures AfterDecision(h, e).pending == h.pending
    {
      DecisionKeepsTokens(h, e);
    }
  }

  lemma SelectKeepsTokens(h: Hub, owner: bool, id: string, courtId: string, pin: string)
    requires EngineOk(h.bracket)
    ensures OnSelectTable(h, owner, id, courtId, pin).0.pending == h.pending
  {
  }

  lemma CreateKeepsTokens(h: Hub, owner: bool, name: string, numSlots: int, thirdPlace: bool, now: int)
    requires EngineOk(h.bracket)
    ensures OnCreate(h, owner, name, numSlots, thirdPlace, now).0.pending == h.pending
  {
  }

  lemma UnbindKeepsTokens(h: Hub, id: string)
    requires EngineOk(h.bracket)
    ensures Unbind(h, id).pending == h.pending
  {
  }

  lemma RestKeepsTokens(h: Hub, ev: Event)
    requires EngineOk(h.bracket) && !OfBracketSide(ev) && !ev.Disconnect?
    ensures Handle(h, ev).pending == h.pending
  {
  }

  // Only reset requests and disconnections touch the tokens.
  lemma TokensKept(h: Hub, ev: Event)
    requires EngineOk(h.bracket) && !ev.ResetRequest? && !ev.Disconnect?
    ensures Handle(h, ev).pending == h.pending
  {
    match ev
    case PlayerRequest(owner, id, slot, name) =>
      RequestKeepsTokens(h, owner, id, AssignPlayer(slot, NameRules.Sanitized(name)));
    case EngineRequest(owner, id, op) => RequestKeepsTokens(h, owner, id, op);
    case AssignCourt(owner, id, binding) => RequestKeepsTokens(h, owner, id, SetCourt(binding));
    case SelectTable(owner, id, courtId, pin) => SelectKeepsTokens(h, owner, id, courtId, pin);
    case Create(owner, name, numSlots, thirdPlace, now) => CreateKeepsTokens(h, owner, name, numSlots, thirdPlace, now);
    case MatchWon(courtId, name) => ResultKeepsTokens(h, courtId, name);
    case UnbindMatch(id) => UnbindKeepsTokens(h, id);
    case ReleaseCourts =>
    case _ => RestKeepsTokens(h, ev);
  }

  lemma WaitingAfterReset(h: Hub, ev: Event, socket: string, p: PendingReset)
    requires ev.ResetRequest?
    requires Waits(OnReset(h, ev.owner, ev.socket, ev.confirm, ev.newToken, ev.now).0, socket, p)
    ensures || (Issues(h, ev) && ev.socket == socket && p == PendingReset(ev.newToken, ev.now + RESET_TIMEOUT_MS))
            || (!(Issues(h, ev) && ev.socket == socket) && Waits(h, socket, p))
  {
  }

  // A token waiting after an event was either issued by it or waiting before it.
  lemma WaitingAfter(h: Hub, ev: Event, socket: string, p: PendingReset)
    requires EngineOk(h.bracket) && Waits(Handle(h, ev), socket, p)
    ensures || (Issues(h, ev) && ev.socket == socket && p == PendingReset(ev.newToken, ev.now + RESET_TIMEOUT_MS))
            || (!(Issues(h, ev) && ev.socket == socket) && Waits(h, socket, p))
  {
    match ev
    case ResetRequest(_, _, _, _, _) => WaitingAfterReset(h, ev, socket, p);
    case Disconnect(_) =>
    case _ => TokensKept(h, ev);
  }

  // Since event j issued it to this socket, the token has been waiting there without a break.
  ghost predicate WaitingSince(start: Hub, evs: seq<Event>, j: nat, k: nat, socket: string, p: PendingReset)
    requires EngineOk(start.bracket) && k <= |evs|
  {
    && j < k
    && Issues(Before(start, evs, j), evs[j]) && evs[j].socket == socket
    && p == PendingReset(evs[j].newToken, evs[j].now + RESET_TIMEOUT_MS)
    && forall m | j < m <= k :: Waits(Before(start, evs, m), socket, p)
  }

  lemma WaitsOneMore(start: Hub, evs: seq<Event>, j: nat, k: nat, socket: string, p: PendingReset)
    requires EngineOk(start.bracket) && k < |evs| && WaitingSince(start, evs, j, k, socket, p)
    requires Waits(Before(start, evs, k + 1), socket, p)
    ensures WaitingSince(start, evs, j, k + 1, socket, p)
  {
  }

  lemma {:induction false} WhereTokensComeFrom(start: Hub, evs: seq<Event>, k: nat, socket: string, p: PendingReset)
    returns (j: nat)
    requires EngineOk(start.bracket) && start.pending == map[] && k <= |evs|
    requires Waits(Before(start, evs, k), socket, p)
    ensures WaitingSince(start, evs, j, k, socket, p)
    decreases k
  {
    var h, ev := Before(start, evs, k - 1), evs[k - 1];
    WaitingAfter(h, ev, socket, p);
    if Issues(h, ev) && ev.socket == socket {
      j := k - 1;
    } else {
      j := WhereTokensComeFrom(start, evs, k - 1, socket, p);
      WaitsOneMore(start, evs, j, k - 1, socket, p);
    }
  }

  // Every clearing consumes the token last issued to that same socket, at most 30 seconds before,
  // which has been waiting since: no disconnection, no newer request in between.
  lemma EveryClearHasItsToken(start: Hub, evs: seq<Event>, k: nat) returns (j: nat)
    requires EngineOk(start.bracket) && start.pending == map[] && k < |evs|
    requires Clears(Before(start, evs, k), evs[k])
    ensures evs[k].confirm.Some?
    ensures j < k && Issues(Before(start, evs, j), evs[j])
    ensures evs[j].socket == evs[k].socket && evs[j].newToken == evs[k].confirm.value
    ensures evs[k].now <= evs[j].now + 30_000
    ensures WaitingSince(start, evs, j, k, evs[k].socket, PendingReset(evs[j].newToken, evs[j].now + RESET_TIMEOUT_MS))
    ensures forall m | j < m < k :: evs[m] != Disconnect(evs[k].socket)
    ensures evs[k].socket !in Before(start, evs, k + 1).pending
  {
    var h, socket := Before(start, evs, k), evs[k].socket;
    var p := h.pending[socket];
    j := WhereTokensComeFrom(start, evs, k, socket, p);
    forall m | j < m < k
      ensures evs[m] != Disconnect(socket)
    {
      assert Waits(Before(start, evs, m + 1), socket, p);
    }
  }

  // Issued tokens are all different, as random identifiers are.
  ghost predicate FreshTokens(start: Hub, evs: seq<Event>)
    requires EngineOk(start.bracket)
  {
    forall i, j | 0 <= i < j < |evs|
                  && Issues(Before(start, evs, i), evs[i]) && Issues(Before(start, evs, j), evs[j]) ::
      evs[i].newToken != evs[j].newToken
  }

  lemma OneIssueEach(start: Hub, evs: seq<Event>, i: nat, j: nat)
    requires EngineOk(start.bracket) && i < |evs| && j < |evs| && FreshTokens(start, evs)
    requires Issues(Before(start, evs, i), evs[i]) && Issues(Before(start, evs, j), evs[j])
    requires evs[i].newToken == evs[j].newToken
    ensures i == j
  {
  }

  // No token clears the bracket twice.
  lemma NoTokenClearsTwice(start: Hub, evs: seq<Event>, k: nat, k': nat)
    requires EngineOk(start.bracket) && start.pending == map[] && k < k' < |evs| && FreshTokens(start, evs)
    requires Clears(Before(start, evs, k), evs[k]) && Clears(Before(start, evs, k'), evs[k'])
    ensures evs[k].confirm != evs[k'].confirm
  {
    var j := EveryClearHasItsToken(start, evs, k);
    var j' := EveryClearHasItsToken(start, evs, k');
    var p := PendingReset(evs[j'].newToken, evs[j'].now + RESET_TIMEOUT_MS);
    // The first clearing consumed what the second one would need to find waiting.
    var stillThere := Waits(Before(start, evs, k + 1), evs[k'].socket, p);
    if evs[k].confirm == evs[k'].confirm {
      OneIssueEach(start, evs, j, j');
    }
  }

  lemma IssueWaits(h: Hub, ev: Event)
    requires EngineOk(h.bracket) && Issues(h, ev)
    ensures Waits(Handle(h, ev), ev.socket, PendingReset(ev.newToken, ev.now + RESET_TIMEOUT_MS))
  {
  }

  // A newer request from the same socket invalidates the older token.
  lemma NewerTokenWins(start: Hub, evs: seq<Event>, i: nat, i': nat, k: nat)
    requires EngineOk(start.bracket) && start.pending == map[] && i < i' < k < |evs| && FreshTokens(start, evs)
    requires Issues(Before(start, evs, i), evs[i]) && Issues(Before(start, evs, i'), evs[i'])
    requires evs[i'].socket == evs[i].socket
    ensures !(Clears(Before(start, evs, k), evs[k]) && evs[k].confirm == Some(evs[i].newToken))
  {
    IssueWaits(Before(start, evs, i'), evs[i']);
    var p := PendingReset(evs[i].newToken, evs[i].now + RESET_TIMEOUT_MS);
    var stillThere := Waits(Before(start, evs, i' + 1), evs[i].socket, p);
    if Clears(Before(start, evs, k), evs[k]) && evs[k].confirm == Some(evs[i].newToken) {
      var j := EveryClearHasItsToken(start, evs, k);
      OneIssueEach(start, evs, i, j);
    }
  }

  // A confirmation clears exactly if it comes from the owner, names the token waiting on its socket,
  // and is in time.
  lemma ClearsIff(h: Hub, ev: Event)
    requires ev.ResetRequest?
    ensures Clears(h, ev)
       <==> && ev.owner && ev.confirm.Some? && ev.confirm.value != "" && ev.socket in h.pending
            && h.pending[ev.socket].token == ev.confirm.value && ev.now <= h.pending[ev.socket].expiresAt
    ensures Issues(h, ev) <==> ev.owner && (ev.confirm.None? || ev.confirm.value == "")
    ensures !Clears(h, ev) ==>
              var h' := OnReset(h, ev.owner, ev.socket, ev.confirm, ev.newToken, ev.now).0;
              h' == h.(pending := h'.pending)
  {
  }

  // Every answer to a reset request: a request without a token gets the one that now waits on its socket
  // for half a minute; an expired one is used up, a wrong one is not.
  lemma ResetAnswers(h: Hub, ev: Event)
    requires ev.ResetRequest?
    ensures var h' := OnReset(h, ev.owner, ev.socket, ev.confirm, ev.newToken, ev.now).0;
            var reply, pending := ReplyTo(h, ev), ev.socket in h.pending;
            if !ev.owner then reply == Refused(Unauthorized) && h' == h
            else if Issues(h, ev) then
              && reply == Token(ev.newToken)
              && h' == h.(pending := h.pending[ev.socket := PendingReset(ev.newToken, ev.now + 30_000)])
            else if !pending || Some(h.pending[ev.socket].token) != ev.confirm then
              reply == Refused(InvalidToken) && h' == h
            else
              && h'.pending == h.pending - {ev.socket}
              && (reply == Refused(ResetExpired) || Clears(h, ev))
              && (reply == Refused(ResetExpired) <==> ev.now > h.pending[ev.socket].expiresAt)
  {
    ReleaseKeepsTokens(h.(pending := h.pending - {ev.socket}));
  }

  lemma ReleaseKeepsTokens(h: Hub)
    ensures AllReleased(h).pending == h.pending
  {
  }

  // So a token still waiting clears the bracket for half a minute, and then no longer.
  lemma ConfirmedInTimeClears(start: Hub, evs: seq<Event>, j: nat, k: nat)
    requires EngineOk(start.bracket) && j < k < |evs| && evs[k].ResetRequest? && evs[k].owner
    requires Issues(Before(start, evs, j), evs[j]) && evs[k].socket == evs[j].socket
    requires WaitingSince(start, evs, j, k, evs[j].socket, PendingReset(evs[j].newToken, evs[j].now + RESET_TIMEOUT_MS))
    requires evs[j].newToken != "" && evs[k].confirm == Some(evs[j].newToken)
    ensures Clears(Before(start, evs, k), evs[k]) <==> evs[k].now - evs[j].now <= 30_000
  {
    ClearsIff(Before(start, evs, k), evs[k]);
    assert Waits(Before(start, evs, k), evs[j].socket, PendingReset(evs[j].newToken, evs[j].now + RESET_TIMEOUT_MS));
  }

  // Giving the courts up before the clearing ends every tournament flow on a court the bracket held.
  lemma ReleaseFrees(h: Hub, i: nat)
    requires h.bracket.Some? && i < |h.courts|
    ensures var c, c' := h.courts[i], AllReleased(h).courts[i];
            && |AllReleased(h).courts| == |h.courts| && c'.id == c.id
            && (c.id in BoundCourts(h.bracket.value) && c.mode == TournamentMode ==>
                  c'.flow.None? && c'.status == MatchSpec.Waiting && c'.engine.state.history == [])
            && (c.id !in BoundCourts(h.bracket.value) || c.mode == ClubMode ==> c' == c)
  {
    assert AllReleased(h).courts == CourtsReleased(h.courts, BoundCourts(h.bracket.value));
  }

  // A clearing leaves no bracket in the engine, in the snapshot or on disk, and every court the
  // bracket held has been given up first: its tournament flow is over.
  lemma ClearFreesCourts(h: Hub, ev: Event, i: nat)
    requires h.bracket.Some? && Clears(h, ev) && i < |h.courts|
    ensures var h' := OnReset(h, ev.owner, ev.socket, ev.confirm, ev.newToken, ev.now).0;
            && h'.bracket.None? && h'.snapshot.bracket.None? && h'.disk == Some(h'.snapshot)
            && |h'.courts| == |h.courts| && h'.courts[i].id == h.courts[i].id
            && (h.courts[i].id in BoundCourts(h.bracket.value) && h.courts[i].mode == TournamentMode ==>
                  h'.courts[i].flow.None?)
            && (h.courts[i].id !in BoundCourts(h.bracket.value) || h.courts[i].mode == ClubMode ==>
                  h'.courts[i] == h.courts[i])
  {
    ReleaseFrees(h.(pending := h.pending - {ev.socket}), i);
  }
}
