/** What the draws of a tick decide for every person, and what extreme rates do to a whole run. */
module SirsLaws {
  import opened Prelude
  import opened Sirs

  // ----- the draws of a tick -----

  /** The stream after so many draws. */
  function After(rng: nat, draws: nat): nat {
    if draws == 0 then rng else NextRng(After(rng, draws - 1))
  }

  lemma {:induction false} AfterOneMore(rng: nat, draws: nat)
    ensures After(NextRng(rng), draws) == After(rng, draws + 1)
  {
    if draws > 0 {
      AfterOneMore(rng, draws - 1);
    }
  }

  /** One of the next `n` draws is below the rate. */
  predicate SomeBelow(rng: nat, n: nat, rate: real) {
    exists j {:trigger After(rng, j)} :: 1 <= j <= n && Uniform(After(rng, j)) < rate
  }

  lemma {:induction false} FirstOrLater(rng: nat, n: nat, rate: real)
    requires n > 0
    ensures SomeBelow(rng, n, rate) <==> Uniform(NextRng(rng)) < rate || SomeBelow(NextRng(rng), n - 1, rate)
  {
    assert After(rng, 1) == NextRng(After(rng, 0));
    if j :| 1 <= j <= n && Uniform(After(rng, j)) < rate {
      if j > 1 {
        AfterOneMore(rng, j - 1);
        assert Uniform(After(NextRng(rng), j - 1)) < rate;
      }
    }
    if j :| 1 <= j <= n - 1 && Uniform(After(NextRng(rng), j)) < rate {
      AfterOneMore(rng, j);
      assert Uniform(After(rng, j + 1)) < rate;
    }
  }

  /** How many of the listed people, from position `k` on, are infected. */
  function InfectedFrom(people: seq<Person>, others: seq<int>, k: nat): nat
    requires k <= |others| && forall i :: 0 <= i < |others| ==> 0 <= others[i] < |people|
    decreases |others| - k
  {
    if k == |others| then 0
    else InfectedFrom(people, others, k + 1) + if people[others[k]].state == Infected then 1 else 0
  }

  /** Every infected neighbour costs one draw until one of them is below the rate. */
  lemma {:induction false} ExposureIff(c: Config, people: seq<Person>, others: seq<int>, k: nat, rng: nat)
    requires k <= |others| && forall i :: 0 <= i < |others| ==> 0 <= others[i] < |people|
    ensures Exposure(c, people, others, k, rng).0 <==> SomeBelow(rng, InfectedFrom(people, others, k), c.beta)
    decreases |others| - k
  {
    if k < |others| {
      if people[others[k]].state == Infected {
        ExposureIff(c, people, others, k + 1, NextRng(rng));
        FirstOrLater(rng, InfectedFrom(people, others, k), c.beta);
      } else {
        ExposureIff(c, people, others, k + 1, rng);
      }
    }
  }

  lemma {:induction false} NeighborsAreDistinct(rows: int, cols: int, id: nat)
    requires rows > 0 && cols > 0
    ensures Distinct(NeighborsOf(rows, cols, id))
  {
    if cols == 1 {
      RemainderIsUnique(id, 1, id, 0);
    }
  }

  /** The infected people that share a side with this one. */
  function InfectedBeside(c: Config, people: seq<Person>, id: nat): set<int>
    requires Fits(c, people)
  {
    set other | 0 <= other < |people| && Adjacent(c.cols, id, other) && people[other].state == Infected
  }

  function InfectedIn(people: seq<Person>, others: seq<int>, k: nat): set<int>
    requires k <= |others| && forall i :: 0 <= i < |others| ==> 0 <= others[i] < |people|
  {
    set other | other in others[k..] && people[other].state == Infected
  }

  lemma {:induction false} InfectedFromIsSize(people: seq<Person>, others: seq<int>, k: nat)
    requires k <= |others| && Distinct(others) && forall i :: 0 <= i < |others| ==> 0 <= others[i] < |people|
    ensures InfectedFrom(people, others, k) == |InfectedIn(people, others, k)|
    decreases |others| - k
  {
    if k < |others| {
      InfectedFromIsSize(people, others, k + 1);
      var later := InfectedIn(people, others, k + 1);
      assert others[k..] == [others[k]] + others[k + 1..];
      if people[others[k]].state == Infected {
        assert InfectedIn(people, others, k) == later + {others[k]} && others[k] !in later;
      } else {
        assert InfectedIn(people, others, k) == later;
      }
    }
  }

  /** The stream when it is a person's turn. */
  function TurnOf(c: Config, people: seq<Person>, rng: nat, id: nat): nat
    requires Fits(c, people) && id < |people|
  {
    Stepped(c, people, rng, id).1
  }

  /** A tick decides for every person by the next draws of the stream: a susceptible one is
      infected when one of as many draws as it has infected neighbours is below beta, an
      infected one recovers when its draw is below gamma, and a recovered one is susceptible
      again when its draw is below xi. */
  lemma {:induction false} DrawsDecide(c: Config, people: seq<Person>, rng: nat, id: nat)
    requires Fits(c, people) && id < |people|
    ensures var (turn, after) := (TurnOf(c, people, rng, id), Stepped(c, people, rng, |people|).0[id].state);
            match people[id].state
            case Susceptible =>
              after == if SomeBelow(turn, |InfectedBeside(c, people, id)|, c.beta) then Infected else Susceptible
            case Infected => after == if Uniform(NextRng(turn)) < c.gamma then Recovered else Infected
            case Recovered => after == if Uniform(NextRng(turn)) < c.xi then Susceptible else Recovered
            case Unknown(_) => after == people[id].state
  {
    LaterTurnsLeave(c, people, rng, id, |people|);
    StepIsSynchronous(c, people, rng, id, id);
    if people[id].state == Susceptible {
      var others := NeighborsOf(c.rows, c.cols, id);
      NeighborsExist(c, people, id);
      NeighborsAreDistinct(c.rows, c.cols, id);
      ExposureIff(c, people, others, 0, TurnOf(c, people, rng, id));
      InfectedFromIsSize(people, others, 0);
      BesideIsIn(c, people, id);
    }
  }

  lemma {:induction false} BesideIsIn(c: Config, people: seq<Person>, id: nat)
    requires Fits(c, people) && id < |people|
    requires forall i :: 0 <= i < |NeighborsOf(c.rows, c.cols, id)| ==>
               0 <= NeighborsOf(c.rows, c.cols, id)[i] < |people|
    ensures InfectedIn(people, NeighborsOf(c.rows, c.cols, id), 0) == InfectedBeside(c, people, id)
  {
    var others := NeighborsOf(c.rows, c.cols, id);
    assert others[0..] == others;
    forall other ensures other in others <==> 0 <= other < |people| && Adjacent(c.cols, id, other) {
      NeighborsShareASide(c.rows, c.cols, id, other);
    }
  }

  lemma {:induction false} LaterTurnsLeave(c: Config, people: seq<Person>, rng: nat, id: nat, upto: nat)
    requires Fits(c, people) && id < upto <= |people|
    ensures Stepped(c, people, rng, upto).0[id] == Stepped(c, people, rng, id + 1).0[id]
  {
    if id + 1 < upto {
      LaterTurnsLeave(c, people, rng, id, upto - 1);
    }
  }

  // ----- extreme rates -----

  lemma {:induction false} UniformIsFraction(rng: nat)
    ensures 0.0 <= Uniform(NextRng(rng)) < 1.0
  {
  }

  lemma {:induction false} AfterIsFraction(rng: nat, j: nat)
    requires j > 0
    ensures 0.0 <= Uniform(After(rng, j)) < 1.0
  {
    UniformIsFraction(After(rng, j - 1));
  }

  /** With rate zero nothing passes on, nobody recovers and nobody loses immunity; with rate one
      every contact infects, every infected person recovers and immunity lasts one tick. */
  lemma {:induction false} ExtremeRates(c: Config, people: seq<Person>, rng: nat, id: nat)
    requires Fits(c, people) && id < |people|
    ensures var after := Stepped(c, people, rng, |people|).0[id].state;
            match people[id].state
            case Susceptible =>
              && (c.beta == 0.0 ==> after == Susceptible)
              && (c.beta == 1.0 ==> after == if InfectedBeside(c, people, id) == {} then Susceptible else Infected)
            case Infected => (c.gamma == 0.0 ==> after == Infected) && (c.gamma == 1.0 ==> after == Recovered)
            case Recovered => (c.xi == 0.0 ==> after == Recovered) && (c.xi == 1.0 ==> after == Susceptible)
            case Unknown(_) => true
  {
    DrawsDecide(c, people, rng, id);
    var turn, n := TurnOf(c, people, rng, id), |InfectedBeside(c, people, id)|;
    UniformIsFraction(turn);
    forall j | 1 <= j <= n ensures 0.0 <= Uniform(After(turn, j)) < 1.0 {
      AfterIsFraction(turn, j);
    }
    if n > 0 {
      assert Uniform(After(turn, 1)) < 1.0;
    }
  }

  /** Where immunity is never lost, whoever has recovered stays so for the rest of every run. */
  lemma {:induction false} RecoveryIsFinal(c: Config, configs: seq<Config>, people: seq<Person>, rng: nat, i: nat,
                                           j: nat, id: nat)
    requires Fits(c, people) && SameGrid(configs, c) && i <= j <= |configs| && id < |people|
    requires forall k {:trigger configs[k]} :: 0 <= k < |configs| ==> configs[k].xi == 0.0
    ensures Run(c, configs, people, rng, i).0[id].state == Recovered ==>
              Run(c, configs, people, rng, j).0[id].state == Recovered
  {
    if i < j {
      RecoveryIsFinal(c, configs, people, rng, i, j - 1, id);
      var (before, mid) := Run(c, configs, people, rng, j - 1);
      assert configs[j - 1].xi == 0.0 && configs[j - 1].rows == c.rows && configs[j - 1].cols == c.cols;
      ExtremeRates(configs[j - 1], before, mid, id);
    }
  }

  // ----- the counts -----

  /** A count is the number of people in that state. */
  lemma {:induction false} CountIsSize(people: seq<Person>, h: Health, upto: nat)
    requires upto <= |people|
    ensures Count(people, h, upto) == |set id: nat | id < upto && people[id].state == h|
  {
    if upto > 0 {
      CountIsSize(people, h, upto - 1);
      var fewer := set id: nat | id < upto - 1 && people[id].state == h;
      var all := set id: nat | id < upto && people[id].state == h;
      if people[upto - 1].state == h {
        assert all == fewer + {upto - 1} && upto - 1 !in fewer;
      } else {
        assert all == fewer;
      }
    }
  }
}
