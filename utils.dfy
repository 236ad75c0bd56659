/** The death tally behind the "Causes of Loss" plot. */
module Utils {
  import opened World

  /** `count_deaths`: a table with one row per team, counting its WALL deaths
      in column 0 and its SNAKE deaths in column 1; SELF, MAX_STEPS and a
      missing cause are not counted. */
  method CountDeaths(deaths: seq<seq<Death>>) returns (deathCounts: array2<int>)
    ensures deathCounts.Length0 == |deaths| && deathCounts.Length1 == 2
    ensures forall i :: 0 <= i < |deaths| ==>
      deathCounts[i, 0] == multiset(deaths[i])[Wall] && deathCounts[i, 1] == multiset(deaths[i])[SnakeCollision]
  {
    deathCounts := new int[|deaths|, 2]((_, _) => 0);
    for i := 0 to |deaths|
      invariant forall k :: 0 <= k < i ==>
        deathCounts[k, 0] == multiset(deaths[k])[Wall] && deathCounts[k, 1] == multiset(deaths[k])[SnakeCollision]
      invariant forall k :: i <= k < |deaths| ==> deathCounts[k, 0] == 0 && deathCounts[k, 1] == 0
    {
      var team := deaths[i];
      for j := 0 to |team|
        invariant deathCounts[i, 0] == multiset(team[..j])[Wall]
        invariant deathCounts[i, 1] == multiset(team[..j])[SnakeCollision]
        invariant forall k :: 0 <= k < i ==>
          deathCounts[k, 0] == multiset(deaths[k])[Wall] && deathCounts[k, 1] == multiset(deaths[k])[SnakeCollision]
        invariant forall k :: i < k < |deaths| ==> deathCounts[k, 0] == 0 && deathCounts[k, 1] == 0
      {
        assert team[..j + 1] == team[..j] + [team[j]];
        if team[j] == Wall {
          deathCounts[i, 0] := deathCounts[i, 0] + 1;
        } else if team[j] == SnakeCollision {
          deathCounts[i, 1] := deathCounts[i, 1] + 1;
        }
      }
      assert team[..|team|] == team;
    }
  }

  /** A team's two counts together never exceed its number of episodes. */
  lemma {:induction false} CountsAtMostEpisodes(deaths: seq<Death>)
    ensures multiset(deaths)[Wall] + multiset(deaths)[SnakeCollision] <= |deaths|
  {
    if deaths != [] {
      var rest := deaths[..|deaths| - 1];
      assert deaths == rest + [deaths[|deaths| - 1]];
      CountsAtMostEpisodes(rest);
    }
  }
}
