/**
 * The session state asyncirc/client.py keeps about its connection, and the
 * way `connection_made`, `connection_lost` / `eof_received` with
 * `_reconnect`, a `welcome` message and `quit` change it.
 */
module Session {

  /** The client's `nickname`, `connected`, `reconnect` and `reconnect_count`. */
  datatype State = State(nickname: string, connected: bool, reconnect: bool, reconnectCount: int)

  /** What follows a lost connection: a reconnection after `delay` seconds, or the loop stopped. */
  datatype AfterLoss = Retry(delay: int) | Stop

  /** A new client: not connected, reconnection on, the first retry after 5 seconds. */
  function Initial(nickname: string): State {
    State(nickname, false, true, 1)
  }

  /** `connection_made`. */
  function Connect(s: State): (t: State)
    ensures t.connected && t.(connected := s.connected) == s
  {
    s.(connected := true)
  }

  /**
   * `connection_lost` and `eof_received`: the connection is marked down;
   * with reconnection on, `_reconnect` waits five seconds per attempt so far
   * and counts one more attempt; otherwise the loop is stopped.
   */
  function Lose(s: State): (r: (State, AfterLoss))
    ensures !r.0.connected && r.0.nickname == s.nickname && r.0.reconnect == s.reconnect
    ensures r.1.Stop? <==> !s.reconnect
  {
    var down := s.(connected := false);
    if s.reconnect then (down.(reconnectCount := s.reconnectCount + 1), Retry(5 * s.reconnectCount))
    else (down, Stop)
  }

  /** A `welcome` message: the nickname the server confirms is kept and the attempts count starts over. */
  function Welcome(s: State, nick: string): (t: State)
    ensures t.nickname == nick && t.reconnectCount == 1
    ensures t.connected == s.connected && t.reconnect == s.reconnect
  {
    s.(nickname := nick, reconnectCount := 1)
  }

  /** `quit`: reconnection is switched off. */
  function Quit(s: State): (t: State)
    ensures !t.reconnect && t.(reconnect := s.reconnect) == s
  {
    s.(reconnect := false)
  }

  /** `n` losses in a row, with what followed each. */
  function Losses(s: State, n: nat): (State, seq<AfterLoss>)
    decreases n
  {
    if n == 0 then (s, [])
    else
      var (next, after) := Lose(s);
      var (last, rest) := Losses(next, n - 1);
      (last, [after] + rest)
  }

  // ---------------------------------------------------------------------
  // Lemmas

  /**
   * With reconnection on, the k-th of `n` losses in a row waits `5 * (c + k)`
   * seconds, counting from zero and the count `c` before the first, and the
   * count ends at `c + n`. The losses need not be back to back: `Connect`
   * leaves the count alone, and only a `welcome` resets it, so a reconnection
   * that fails before the server says welcome keeps the delays growing.
   */
  lemma {:induction false} BackoffGrows(s: State, n: nat)
    requires s.reconnect
    ensures |Losses(s, n).1| == n
    ensures forall k :: 0 <= k < n ==> Losses(s, n).1[k] == Retry(5 * (s.reconnectCount + k))
    ensures Losses(s, n).0.reconnectCount == s.reconnectCount + n
    ensures Losses(s, n).0.reconnect && Losses(s, n).0.nickname == s.nickname
    ensures n > 0 ==> !Losses(s, n).0.connected
    decreases n
  {
    if n > 0 {
      var next := Lose(s).0;
      BackoffGrows(next, n - 1);
      var rest := Losses(next, n - 1).1;
      assert Losses(s, n).1 == [Retry(5 * s.reconnectCount)] + rest;
      forall k | 0 <= k < n ensures Losses(s, n).1[k] == Retry(5 * (s.reconnectCount + k)) {
        if k > 0 {
          assert Losses(s, n).1[k] == rest[k - 1];
        }
      }
    }
  }

  /** After a `welcome`, the k-th loss in a row (counting from one) waits `5 * k` seconds. */
  lemma BackoffAfterWelcome(s: State, nick: string, n: nat)
    requires s.reconnect
    ensures |Losses(Welcome(s, nick), n).1| == n
    ensures forall k :: 1 <= k <= n ==> Losses(Welcome(s, nick), n).1[k - 1] == Retry(5 * k)
  {
    BackoffGrows(Welcome(s, nick), n);
  }

  /** After `quit`, every loss stops the loop, however many follow, and nothing but `connected` changes. */
  lemma {:induction false} QuitStops(s: State, n: nat)
    ensures |Losses(Quit(s), n).1| == n
    ensures forall k :: 0 <= k < n ==> Losses(Quit(s), n).1[k] == Stop
    ensures Losses(Quit(s), n).0 == if n == 0 then Quit(s) else Quit(s).(connected := false)
    decreases n
  {
    if n > 0 {
      var next := Lose(Quit(s)).0;
      assert next == Quit(s.(connected := false));
      QuitStops(s.(connected := false), n - 1);
      var rest := Losses(next, n - 1).1;
      forall k | 0 <= k < n ensures Losses(Quit(s), n).1[k] == Stop {
        if k > 0 {
          assert Losses(Quit(s), n).1[k] == rest[k - 1];
        }
      }
    }
  }
}
