/**
 `client.ts`, `session.ts` and the two session endpoints of `auth.ts`, each event-loop turn a
 method. Every method is one step of `TabSession`.
 */
module ApiClient {
  import opened Wrappers
  import opened TokenTable
  import T = TabSession

  /** The two localStorage entries. */
  class TokenStore {
    var access: Option<nat>
    var refresh: Option<Token>
    ghost var held: set<Token>

    ghost predicate Valid()
      reads this
    {
      access.Some? <==> refresh.Some?
    }

    ghost function View(): Option<T.Tokens>
      reads this
      requires Valid()
    {
      if access.Some? then Some(T.Tokens(access.value, refresh.value)) else None
    }

    /** What localStorage already has. */
    constructor (stored: Option<T.Tokens>)
      ensures Valid() && View() == stored && held == if stored.Some? then {stored.value.refresh} else {}
    {
      access := if stored.Some? then Some(stored.value.access) else None;
      refresh := if stored.Some? then Some(stored.value.refresh) else None;
      held := if stored.Some? then {stored.value.refresh} else {};
    }

    method Set(tokens: T.Tokens)
      modifies this
      ensures Valid() && View() == Some(tokens) && held == old(held) + {tokens.refresh}
    {
      access := Some(tokens.access);
      refresh := Some(tokens.refresh);
      held := held + {tokens.refresh};
    }

    method Clear()
      modifies this
      ensures Valid() && View() == None && held == old(held)
    {
      access := None;
      refresh := None;
    }
  }

  class Client {
    const tokenStore: TokenStore
    var refreshInFlight: Option<nat>
    var flights: seq<T.Flight>
    var requests: seq<T.Request>
    var logoutEvents: nat
    ghost var orphans: set<Token>

    ghost predicate Valid()
      reads this, tokenStore
    {
      tokenStore.Valid() && T.Valid(View())
    }

    ghost function View(): T.Tab
      reads this, tokenStore
      requires tokenStore.Valid()
    {
      T.Tab(tokenStore.View(), refreshInFlight, flights, requests, logoutEvents, tokenStore.held, orphans)
    }

    constructor (stored: Option<T.Tokens>)
      ensures Valid() && View() == T.Opened(stored) && fresh(tokenStore)
    {
      refreshInFlight, flights, requests, logoutEvents := None, [], [], 0;
      tokenStore := new TokenStore(stored);
      orphans := {};
    }

    /** The page is loaded anew: another instance over the same localStorage. Its flights so far are history. */
    constructor Reloaded(old': Client)
      requires old'.Valid()
      ensures tokenStore == old'.tokenStore && Valid() && View() == T.Next(old'.View(), T.Reload)
      ensures refreshInFlight == None && requests == []
    {
      T.NextKeepsValid(old'.View(), T.Reload);
      tokenStore := old'.tokenStore;
      refreshInFlight, requests, logoutEvents := None, [], old'.logoutEvents;
      var i := old'.refreshInFlight;
      flights := if i.Some? && old'.flights[i.value].settled.None?
                 then old'.flights[i.value := old'.flights[i.value].(settled := Some(None))] else old'.flights;
      orphans := T.Reloaded(old'.View()).orphans;
    }

    method Send() returns (id: nat)
      requires Valid()
      modifies this`requests
      ensures Valid() && View() == T.Next(old(View()), T.Send) && id == |old(requests)|
      ensures requests == old(requests) + [T.Request(1, false, tokenStore.access, T.Sent)]
    {
      T.NextKeepsValid(View(), T.Send);
      id := |requests|;
      requests := requests + [T.Request(1, false, tokenStore.access, T.Sent)];
    }

    method OnAnswer(r: nat, ok: bool)
      requires Valid() && r < |requests| && requests[r].state == T.Sent
      modifies this`requests
      ensures Valid() && View() == T.Next(old(View()), T.Answer(r, ok))
      ensures requests == old(requests)[r := old(requests)[r].(state := if ok then T.Fulfilled else T.Rejected)]
    {
      T.NextKeepsValid(View(), T.Answer(r, ok));
      requests := requests[r := requests[r].(state := if ok then T.Fulfilled else T.Rejected)];
    }

    /** Joins the refresh in flight or starts one; the caller awaits the flight returned. */
    method RefreshAccessToken() returns (flight: nat)
      requires Valid()
      modifies this`refreshInFlight, this`flights
      ensures View() == T.RefreshAccessToken(old(View())) && refreshInFlight == Some(flight)
    {
      if refreshInFlight.None? {
        refreshInFlight := Some(|flights|);
        StartRefresh();
      }
      flight := refreshInFlight.value;
    }

    /** `doRefresh` up to its await: with no token to post, its promise is null at once. */
    method StartRefresh()
      requires tokenStore.Valid()
      modifies this`flights
      ensures flights == old(flights) + [
        if tokenStore.refresh.Some? then T.Flight(tokenStore.refresh, None) else T.Flight(None, Some(None))]
    {
      var refreshToken := tokenStore.refresh;
      if refreshToken.None? {
        flights := flights + [T.Flight(None, Some(None))];
        return;
      }
      flights := flights + [T.Flight(refreshToken, None)];
    }

    /** The interceptor, up to `await refreshAccessToken()`. */
    method OnUnauthorized(r: nat)
      requires Valid() && r < |requests| && requests[r].state == T.Sent
      modifies this`requests, this`refreshInFlight, this`flights
      ensures Valid() && View() == T.Next(old(View()), T.Unauthorized(r))
      ensures requests[r].state ==
        if old(requests)[r].retried || tokenStore.refresh.None? then T.Rejected else T.Waiting(refreshInFlight.value)
    {
      T.NextKeepsValid(View(), T.Unauthorized(r));
      var canRetry := !requests[r].retried && tokenStore.refresh.Some?;
      if canRetry {
        var flight := RefreshAccessToken();
        requests := requests[r := requests[r].(retried := true, state := T.Waiting(flight))];
      } else {
        requests := requests[r := requests[r].(state := T.Rejected)];
      }
    }

    /** `doRefresh` resumed by the server's answer. */
    method OnRefreshAnswered(tokens: T.Tokens)
      requires Valid() && T.Pending(View()) && tokens.refresh !in tokenStore.held
      modifies this`flights, tokenStore
      ensures Valid() && View() == T.Next(old(View()), T.RefreshAnswered(tokens))
      ensures tokenStore.View() == Some(tokens) && flights[refreshInFlight.value].settled == Some(Some(tokens.access))
    {
      T.NextKeepsValid(View(), T.RefreshAnswered(tokens));
      tokenStore.Set(tokens);
      var i := refreshInFlight.value;
      flights := flights[i := flights[i].(settled := Some(Some(tokens.access)))];
    }

    /** `doRefresh` resumed by any failure: the session is over. */
    method OnRefreshFailed()
      requires Valid() && T.Pending(View())
      modifies this`flights, tokenStore
      ensures Valid() && View() == T.Next(old(View()), T.RefreshFailed)
      ensures tokenStore.View() == None && flights[refreshInFlight.value].settled == Some(None)
    {
      T.NextKeepsValid(View(), T.RefreshFailed);
      tokenStore.Clear();
      var i := refreshInFlight.value;
      flights := flights[i := flights[i].(settled := Some(None))];
    }

    /** The `finally` that empties the slot once its promise has settled. */
    method OnSettled()
      requires Valid() && refreshInFlight.Some? && !T.Pending(View())
      modifies this`refreshInFlight
      ensures Valid() && View() == T.Next(old(View()), T.SlotCleared) && refreshInFlight == None
    {
      T.NextKeepsValid(View(), T.SlotCleared);
      refreshInFlight := None;
    }

    /** The interceptor after its await: retry once, or announce the dead session. */
    method Resume(r: nat)
      requires Valid() && r < |requests| && requests[r].state.Waiting?
      requires flights[requests[r].state.flight].settled.Some?
      modifies this`requests, this`logoutEvents
      ensures Valid() && View() == T.Next(old(View()), T.Resume(r))
      ensures match flights[old(requests)[r].state.flight].settled.value {
          case Some(access) =>
            && requests[r].state == T.Sent && requests[r].sends == old(requests)[r].sends + 1
            && requests[r].bearer == (if tokenStore.access.Some? then tokenStore.access else Some(access))
            && logoutEvents == old(logoutEvents)
          case None => requests[r].state == T.Rejected && logoutEvents == old(logoutEvents) + 1
        }
    {
      T.NextKeepsValid(View(), T.Resume(r));
      assert T.RequestOk(View(), requests[r]);
      var request := requests[r];
      var newAccessToken := flights[request.state.flight].settled.value;
      if newAccessToken.Some? {
        var bearer := if tokenStore.access.Some? then tokenStore.access else newAccessToken;
        requests := requests[r := request.(sends := request.sends + 1, bearer := bearer, state := T.Sent)];
      } else {
        logoutEvents := logoutEvents + 1;
        requests := requests[r := request.(state := T.Rejected)];
      }
    }

    /** The tail of login, register and googleLogin. */
    method OnSignedIn(tokens: T.Tokens)
      requires Valid() && tokens.refresh !in tokenStore.held
      modifies tokenStore
      ensures Valid() && View() == T.Next(old(View()), T.SignedIn(tokens)) && tokenStore.View() == Some(tokens)
    {
      T.NextKeepsValid(View(), T.SignedIn(tokens));
      tokenStore.Set(tokens);
    }

    /** The `finally` of logout, whatever the server said. */
    method OnSignedOut()
      requires Valid()
      modifies tokenStore
      ensures Valid() && View() == T.Next(old(View()), T.SignedOut) && tokenStore.View() == None
    {
      T.NextKeepsValid(View(), T.SignedOut);
      tokenStore.Clear();
    }
  }
}
