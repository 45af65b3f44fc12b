/** Select and isolate: the two shared links of a deserialiser's I2C mux, polled for under one mutex.

    An `Action` is what one client does while it holds the mutex; a trace is any interleaving of the
    actions of any number of clients. Polls that give up leave no further action behind. */
module LinkMux {

  const NUM_LINKS: nat := 2

  datatype Action = TrySelect(chan: nat) | Deselect(chan: nat) | TryIsolate(link: nat) | Deisolate(link: nat)

  datatype Outcome = Granted | Busy | AlreadyIsolated | Invalid | Released

  // -1 stands for no link.
  datatype State = State(isolated: int, selected: int)

  const IDLE: State := State(-1, -1)

  function Next(s: State, a: Action): State {
    match a
    case TrySelect(l) => if Result(s, a) == Granted then s.(selected := l) else s
    case Deselect(_) => if Result(s, a) == Released then s.(selected := -1) else s
    case TryIsolate(l) => if Result(s, a) == Granted then s.(isolated := l) else s
    case Deisolate(_) => if Result(s, a) == Released then s.(isolated := -1) else s
  }

  function Result(s: State, a: Action): Outcome {
    match a
    case TrySelect(l) =>
      if l > NUM_LINKS then Invalid else if s.selected < 0 || s.selected == l then Granted else Busy
    case Deselect(l) => if l > NUM_LINKS then Invalid else Released
    case TryIsolate(l) =>
      if l >= NUM_LINKS then Invalid
      else if s.isolated < 0 && (s.selected < 0 || s.selected == l) then Granted
      else if s.isolated == l then AlreadyIsolated
      else Busy
    case Deisolate(l) => if l >= NUM_LINKS then Invalid else Released
  }

  // The state after a whole trace.
  function Play(s: State, trace: seq<Action>): State {
    if trace == [] then s else Next(Play(s, trace[..|trace| - 1]), trace[|trace| - 1])
  }

  // What action `i` of a trace that starts idle gets.
  function ResultAt(trace: seq<Action>, i: nat): Outcome
    requires i < |trace|
  {
    Result(Play(IDLE, trace[..i]), trace[i])
  }

  predicate Isolates(trace: seq<Action>, i: nat, link: nat) {
    i < |trace| && trace[i] == TryIsolate(link) && ResultAt(trace, i) == Granted
  }

  predicate Selects(trace: seq<Action>, i: nat, chan: nat) {
    i < |trace| && trace[i] == TrySelect(chan) && ResultAt(trace, i) == Granted
  }

  predicate Deisolates(trace: seq<Action>, i: nat) {
    i < |trace| && trace[i].Deisolate? && ResultAt(trace, i) == Released
  }

  predicate Deselects(trace: seq<Action>, i: nat) {
    i < |trace| && trace[i].Deselect? && ResultAt(trace, i) == Released
  }

  lemma {:induction false} Prefix(trace: seq<Action>, i: nat)
    requires i < |trace|
    ensures Play(IDLE, trace[..i + 1]) == Next(Play(IDLE, trace[..i]), trace[i])
  {
    assert trace[..i + 1][..i] == trace[..i];
  }

  lemma IsolationStep(trace: seq<Action>, n: nat)
    requires n < |trace|
    ensures trace[n].TryIsolate? && ResultAt(trace, n) == Granted ==>
      Play(IDLE, trace[..n + 1]).isolated == trace[n].link
    ensures !Deisolates(trace, n) && Play(IDLE, trace[..n]).isolated >= 0 ==>
      Play(IDLE, trace[..n + 1]).isolated == Play(IDLE, trace[..n]).isolated
  {
    Prefix(trace, n);
  }

  // From a granted isolate on, the link stays isolated until someone deisolates.
  lemma {:induction false} StaysIsolated(trace: seq<Action>, i: nat, j: nat, link: nat)
    requires Isolates(trace, i, link) && i < j <= |trace|
    requires forall k: nat | i < k < j :: !Deisolates(trace, k)
    ensures Play(IDLE, trace[..j]).isolated == link
  {
    if j == i + 1 {
    } else {
      StaysIsolated(trace, i, j - 1, link);
    }
    IsolationStep(trace, j - 1);
  }

  lemma SelectionStep(trace: seq<Action>, n: nat)
    requires n < |trace|
    ensures trace[n].TrySelect? && ResultAt(trace, n) == Granted ==>
      Play(IDLE, trace[..n + 1]).selected == trace[n].chan
    ensures !Deselects(trace, n) && Play(IDLE, trace[..n]).selected >= 0 ==>
      Play(IDLE, trace[..n + 1]).selected == Play(IDLE, trace[..n]).selected
  {
    Prefix(trace, n);
  }

  lemma {:induction false} StaysSelected(trace: seq<Action>, i: nat, j: nat, chan: nat)
    requires Selects(trace, i, chan) && i < j <= |trace|
    requires forall k: nat | i < k < j :: !Deselects(trace, k)
    ensures Play(IDLE, trace[..j]).selected == chan
  {
    if j == i + 1 {
    } else {
      StaysSelected(trace, i, j - 1, chan);
    }
    SelectionStep(trace, j - 1);
  }

  /** Between two granted isolates, of whatever links and clients, somebody deisolates. */
  lemma IsolatesSeparated(trace: seq<Action>, i: nat, j: nat, a: nat, b: nat)
    requires i < j && Isolates(trace, i, a) && Isolates(trace, j, b)
    ensures exists k: nat :: i < k < j && Deisolates(trace, k)
  {
    if forall k: nat | i < k < j :: !Deisolates(trace, k) {
      StaysIsolated(trace, i, j, a);
      assert false;
    }
  }

  /** Between a granted select and the next deselect no other link is selected, and none is isolated. */
  lemma SelectionExcludes(trace: seq<Action>, i: nat, j: nat, a: nat, b: nat)
    requires i < j && Selects(trace, i, a) && (Selects(trace, j, b) || Isolates(trace, j, b))
    requires forall k: nat | i < k < j :: !Deselects(trace, k)
    ensures a == b
  {
    StaysSelected(trace, i, j, a);
  }

  /** The state records the trace exactly: a link is isolated if and only if its isolate was granted and
      nobody has deisolated since. */
  lemma {:induction false} IsolatedExactly(trace: seq<Action>, link: nat)
    ensures Play(IDLE, trace).isolated == link <==>
      exists i: nat :: Isolates(trace, i, link) && forall k: nat | i < k < |trace| :: !Deisolates(trace, k)
  {
    if i: nat :| Isolates(trace, i, link) && forall k: nat | i < k < |trace| :: !Deisolates(trace, k) {
      StaysIsolated(trace, i, |trace|, link);
      assert trace[..|trace|] == trace;
    }
    if Play(IDLE, trace).isolated == link {
      var i := LastIsolate(trace, link);
    }
  }

  lemma {:induction false} LastIsolate(trace: seq<Action>, link: nat) returns (i: nat)
    requires Play(IDLE, trace).isolated == link
    ensures Isolates(trace, i, link) && forall k: nat | i < k < |trace| :: !Deisolates(trace, k)
  {
    var n := |trace| - 1;
    var before := trace[..n];
    if Play(IDLE, before).isolated == link {
      i := LastIsolate(before, link);
      SamePrefixes(trace, n);
      assert Isolates(trace, i, link);
      forall k: nat | i < k < |trace| ensures !Deisolates(trace, k) {
        assert k < n ==> !Deisolates(before, k);
        assert trace[..n] == before;
      }
    } else {
      i := n;
    }
  }

  lemma SamePrefixes(trace: seq<Action>, n: nat)
    requires n <= |trace|
    ensures forall i: nat | i < n :: trace[..n][..i] == trace[..i]
  {
  }

  // Selection `i` of `chan`, or isolation `i` of `link`, was granted and nobody has ended it before action `n`.
  // Selects take the numbers 0 to 2, isolates 0 and 1.
  predicate SelectionStands(trace: seq<Action>, n: nat, i: nat, chan: nat) {
    && i < n <= |trace| && Selects(trace, i, chan)
    && forall k: nat | i < k < n :: !(trace[k].Deselect? && trace[k].chan <= 2)
  }

  predicate IsolationStands(trace: seq<Action>, n: nat, i: nat, link: nat) {
    && i < n <= |trace| && Isolates(trace, i, link)
    && forall k: nat | i < k < n :: !(trace[k].Deisolate? && trace[k].link < 2)
  }

  lemma {:induction false} SelectedExactly(trace: seq<Action>, n: nat, chan: nat)
    requires n <= |trace|
    ensures Play(IDLE, trace[..n]).selected == chan <==> exists i: nat :: SelectionStands(trace, n, i, chan)
  {
    if i: nat :| SelectionStands(trace, n, i, chan) {
      StaysSelected(trace, i, n, chan);
    }
    if Play(IDLE, trace[..n]).selected == chan {
      var i := LastSelect(trace, n, chan);
    }
  }

  lemma {:induction false} LastSelect(trace: seq<Action>, n: nat, chan: nat) returns (i: nat)
    requires n <= |trace| && Play(IDLE, trace[..n]).selected == chan
    ensures SelectionStands(trace, n, i, chan)
  {
    Prefix(trace, n - 1);
    if Play(IDLE, trace[..n - 1]).selected == chan && !Selects(trace, n - 1, chan) {
      i := LastSelect(trace, n - 1, chan);
    } else {
      i := n - 1;
    }
  }

  lemma {:induction false} LastStanding(trace: seq<Action>, n: nat, link: nat) returns (i: nat)
    requires n <= |trace| && Play(IDLE, trace[..n]).isolated == link
    ensures IsolationStands(trace, n, i, link)
  {
    Prefix(trace, n - 1);
    if Play(IDLE, trace[..n - 1]).isolated == link {
      i := LastStanding(trace, n - 1, link);
    } else {
      i := n - 1;
    }
  }

  lemma {:induction false} StandingIsolated(trace: seq<Action>, n: nat, link: nat)
    requires n <= |trace|
    ensures Play(IDLE, trace[..n]).isolated == link <==> exists i: nat :: IsolationStands(trace, n, i, link)
  {
    if i: nat :| IsolationStands(trace, n, i, link) {
      StaysIsolated(trace, i, n, link);
    }
    if Play(IDLE, trace[..n]).isolated == link {
      var i := LastStanding(trace, n, link);
    }
  }

  ghost predicate OtherSelected(trace: seq<Action>, n: nat, link: nat) {
    exists chan: nat, i: nat :: chan != link && SelectionStands(trace, n, i, chan)
  }

  ghost predicate Isolated(trace: seq<Action>, n: nat, link: nat) {
    exists i: nat :: IsolationStands(trace, n, i, link)
  }

  /** What a poll gets, in terms of what went before: a select is granted exactly if no selection of another
      channel stands, and one of the same channel does not matter. */
  lemma SelectGrantedExactly(trace: seq<Action>, n: nat)
    requires n < |trace| && trace[n].TrySelect?
    ensures ResultAt(trace, n) ==
      if trace[n].chan > 2 then Invalid else if OtherSelected(trace, n, trace[n].chan) then Busy else Granted
  {
    var s, l := Play(IDLE, trace[..n]).selected, trace[n].chan;
    if s >= 0 && s != l {
      SelectedExactly(trace, n, s);
    }
    if OtherSelected(trace, n, l) {
      var chan: nat, i: nat :| chan != l && SelectionStands(trace, n, i, chan);
      SelectedExactly(trace, n, chan);
    }
  }

  /** An isolate is granted exactly if no isolation stands and no selection of another channel does; one of an
      isolated link is told so; and anything else is busy. */
  lemma IsolateGrantedExactly(trace: seq<Action>, n: nat)
    requires n < |trace| && trace[n].TryIsolate?
    ensures var link := trace[n].link;
      ResultAt(trace, n) ==
        if link >= 2 then Invalid
        else if Isolated(trace, n, link) then AlreadyIsolated
        else if Isolated(trace, n, 1 - link) || OtherSelected(trace, n, link) then Busy
        else Granted
  {
    var s, l := Play(IDLE, trace[..n]), trace[n].link;
    if l < 2 {
      IsolationsExist(trace, n);
      StandingIsolated(trace, n, l);
      StandingIsolated(trace, n, 1 - l);
      if s.selected >= 0 && s.selected != l {
        SelectedExactly(trace, n, s.selected);
      }
      if OtherSelected(trace, n, l) {
        var chan: nat, i: nat :| chan != l && SelectionStands(trace, n, i, chan);
        SelectedExactly(trace, n, chan);
      }
    }
  }

  lemma {:induction false} IsolationsExist(trace: seq<Action>, n: nat)
    requires n <= |trace|
    ensures -1 <= Play(IDLE, trace[..n]).isolated < 2
  {
    if n == 0 {
    } else {
      IsolationsExist(trace, n - 1);
      Prefix(trace, n - 1);
    }
  }

  /** Deisolating does not look at its link: link 1 can end the isolation of link 0. */
  lemma DeisolateIsNotOwned()
    ensures var trace := [TryIsolate(0), Deisolate(1), TryIsolate(1)]; Isolates(trace, 0, 0) && Isolates(trace, 2, 1)
  {
  }

  lemma {:induction false} PlayAppend(s: State, t: seq<Action>, u: seq<Action>)
    ensures Play(s, t + u) == Play(Play(s, t), u)
  {
    if u == [] {
      assert t + u == t;
    } else {
      var n := |u| - 1;
      PlayAppend(s, t, u[..n]);
      assert (t + u)[..|t + u| - 1] == t + u[..n];
    }
  }

  // What a poll loop answers: whatever its first poll that does not find the link taken gets.
  function Polls(s: State, rounds: seq<seq<Action>>, a: Action): Outcome
    decreases |rounds|
  {
    if Result(s, a) == Invalid then Invalid
    else if rounds == [] then Busy
    else if Result(s, a) != Busy then Result(s, a)
    else Polls(Play(s, rounds[0]), rounds[1..], a)
  }

  // What happens over a number of rounds: a poll, and then what the others do while the client sleeps.
  function Polled(rounds: seq<seq<Action>>, a: Action): seq<Action> {
    if rounds == [] then [] else Polled(rounds[..|rounds| - 1], a) + [a] + rounds[|rounds| - 1]
  }

  // The same without the polls.
  function Flat(rounds: seq<seq<Action>>): seq<Action> {
    if rounds == [] then [] else Flat(rounds[..|rounds| - 1]) + rounds[|rounds| - 1]
  }

  // A poll loop went through `k` rounds in vain, and then either gave up or got its answer.
  predicate PolledTo(before: State, now: State, trace: seq<Action>, rounds: seq<seq<Action>>, a: Action, r: Outcome,
                     k: nat)
    requires k <= |rounds|
  {
    var waited := Play(before, Flat(rounds[..k]));
    if r == Busy then k == |rounds| && trace == Polled(rounds, a) && now == waited
    else
      && k < |rounds| && trace == Polled(rounds[..k], a) + [a]
      && Result(waited, a) == r && now == Next(waited, a)
  }

  lemma OneMoreRound(s: State, rounds: seq<seq<Action>>, a: Action, i: nat)
    requires i < |rounds|
    ensures Polled(rounds[..i + 1], a) == Polled(rounds[..i], a) + [a] + rounds[i]
    ensures Play(s, Flat(rounds[..i + 1])) == Play(Play(s, Flat(rounds[..i])), rounds[i])
    ensures rounds[i..][1..] == rounds[i + 1..]
  {
    assert rounds[..i + 1][..i] == rounds[..i];
    PlayAppend(s, Flat(rounds[..i]), rounds[i]);
  }

  /** A poll loop in vain changes nothing itself: its trace plays like what the others did. */
  lemma {:induction false} VainPollsChangeNothing(s: State, rounds: seq<seq<Action>>, a: Action)
    requires (a.TrySelect? || a.TryIsolate?) && Polls(s, rounds, a) == Busy
    ensures Play(s, Polled(rounds, a)) == Play(s, Flat(rounds))
  {
    VainPolls(s, rounds, a, |rounds|);
    assert rounds[..|rounds|] == rounds;
  }

  lemma {:induction false} VainPolls(s: State, rounds: seq<seq<Action>>, a: Action, n: nat)
    requires (a.TrySelect? || a.TryIsolate?) && Polls(s, rounds, a) == Busy && n <= |rounds|
    ensures Play(s, Polled(rounds[..n], a)) == Play(s, Flat(rounds[..n]))
    ensures Polls(Play(s, Flat(rounds[..n])), rounds[n..], a) == Busy
  {
    if n == 0 {
      assert rounds[0..] == rounds;
    } else {
      VainPolls(s, rounds, a, n - 1);
      OneMoreRound(s, rounds, a, n - 1);
      var trace := Polled(rounds[..n - 1], a);
      PlayAppend(s, trace + [a], rounds[n - 1]);
      assert (trace + [a])[..|trace|] == trace;
    }
  }

  class Mux {
    var isolated: int
    var selected: int

    ghost function Current(): State
      reads this
    {
      State(isolated, selected)
    }

    constructor ()
      ensures Current() == IDLE
    {
      isolated, selected := -1, -1;
    }

    method Deselect(chan: nat) returns (r: Outcome)
      modifies this
      ensures Current() == Next(old(Current()), Action.Deselect(chan))
      ensures r == Result(old(Current()), Action.Deselect(chan))
    {
      if chan > NUM_LINKS {
        return Invalid;
      }
      selected := -1;
      r := Released;
    }

    method Deisolate(link: nat) returns (r: Outcome)
      modifies this
      ensures Current() == Next(old(Current()), Action.Deisolate(link))
      ensures r == Result(old(Current()), Action.Deisolate(link))
    {
      if link >= NUM_LINKS {
        return Invalid;
      }
      isolated := -1;
      r := Released;
    }

    // What the other clients do while this one sleeps between two polls.
    method Others(actions: seq<Action>)
      modifies this
      ensures Current() == Play(old(Current()), actions)
    {
      for i := 0 to |actions|
        invariant Current() == Play(old(Current()), actions[..i])
      {
        var s := Next(State(isolated, selected), actions[i]);
        isolated, selected := s.isolated, s.selected;
        assert actions[..i + 1][..i] == actions[..i];
      }
      assert actions[..|actions|] == actions;
    }

    /** Polls until granted or out of rounds. `trace` is what happened meanwhile, this client's polls and what
        the others did while it slept; after a timeout the state is what the others alone would have made it. */
    method Select(chan: nat, rounds: seq<seq<Action>>) returns (r: Outcome, ghost trace: seq<Action>)
      modifies this
      ensures r == Polls(old(Current()), rounds, TrySelect(chan))
      ensures r == Invalid ==> trace == [] && Current() == old(Current())
      ensures r != Invalid ==> exists k: nat | k <= |rounds| ::
        PolledTo(old(Current()), Current(), trace, rounds, TrySelect(chan), r, k)
    {
      trace := [];
      if chan > NUM_LINKS {
        return Invalid, trace;
      }
      for i := 0 to |rounds|
        invariant Current() == Play(old(Current()), Flat(rounds[..i])) && trace == Polled(rounds[..i], TrySelect(chan))
        invariant Polls(old(Current()), rounds, TrySelect(chan)) == Polls(Current(), rounds[i..], TrySelect(chan))
      {
        OneMoreRound(old(Current()), rounds, TrySelect(chan), i);
        if selected < 0 || selected == chan {
          selected := chan;
          trace := trace + [TrySelect(chan)];
          assert PolledTo(old(Current()), Current(), trace, rounds, TrySelect(chan), Granted, i);
          return Granted, trace;
        }
        Others(rounds[i]);
        trace := trace + [TrySelect(chan)] + rounds[i];
      }
      r := Busy;
      assert rounds[..|rounds|] == rounds;
      assert PolledTo(old(Current()), Current(), trace, rounds, TrySelect(chan), Busy, |rounds|);
    }

    method Isolate(link: nat, rounds: seq<seq<Action>>) returns (r: Outcome, ghost trace: seq<Action>)
      modifies this
      ensures r == Polls(old(Current()), rounds, TryIsolate(link))
      ensures r == Invalid ==> trace == [] && Current() == old(Current())
      ensures r != Invalid ==> exists k: nat | k <= |rounds| ::
        PolledTo(old(Current()), Current(), trace, rounds, TryIsolate(link), r, k)
    {
      trace := [];
      if link >= NUM_LINKS {
        return Invalid, trace;
      }
      for i := 0 to |rounds|
        invariant Current() == Play(old(Current()), Flat(rounds[..i])) && trace == Polled(rounds[..i], TryIsolate(link))
        invariant Polls(old(Current()), rounds, TryIsolate(link)) == Polls(Current(), rounds[i..], TryIsolate(link))
      {
        OneMoreRound(old(Current()), rounds, TryIsolate(link), i);
        if isolated < 0 && (selected < 0 || link == selected) {
          isolated := link;
          trace := trace + [TryIsolate(link)];
          assert PolledTo(old(Current()), Current(), trace, rounds, TryIsolate(link), Granted, i);
          return Granted, trace;
        }
        if isolated == link {
          trace := trace + [TryIsolate(link)];
          assert PolledTo(old(Current()), Current(), trace, rounds, TryIsolate(link), AlreadyIsolated, i);
          return AlreadyIsolated, trace;
        }
        Others(rounds[i]);
        trace := trace + [TryIsolate(link)] + rounds[i];
      }
      r := Busy;
      assert rounds[..|rounds|] == rounds;
      assert PolledTo(old(Current()), Current(), trace, rounds, TryIsolate(link), Busy, |rounds|);
    }
  }
}
