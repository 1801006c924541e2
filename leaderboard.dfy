/** The leaderboard: every user, ranked by reward points, with a rank number,
    an icon and a card style that single out the first three places. */
module Leaderboard {
  import opened Domain
  import opened Sorting

  // ------------------------------------------------------------ the ranking

  /** The page state after its mount effect. */
  class Board {
    var users: array<User>
    var log: seq<StoreCall>

    /** `getUsers().sort(byPointsDesc)` sorts the fetched array in place and
        keeps that same array as the list; `all` is what `getUsers()`
        returns. */
    constructor Mount(all: array<User>)
      modifies all
      ensures users == all
      ensures all[..] == SortDesc(old(all[..]), Points)
      ensures log == [GetUsers]
    {
      log := [GetUsers];
      SortByKeyDesc(all, Points);
      users := all;
    }
  }

  /** The ranking holds every fetched user exactly once per occurrence,
      best first. */
  lemma RankingPermutesAndOrders(all: seq<User>)
    ensures |SortDesc(all, Points)| == |all|
    ensures multiset(SortDesc(all, Points)) == multiset(all)
    ensures NonIncreasing(SortDesc(all, Points), Points)
  {
    SortDescPermutes(all, Points);
    SortDescSorted(all, Points);
  }

  // ----------------------------------------------------- icons and styles

  datatype RankIcon = Trophy | Medal | Star

  /** `getRankIcon(rank)`: the ranks count from 0. */
  function RankIconFor(rank: nat): RankIcon {
    if rank == 0 then Trophy
    else if rank == 1 then Medal
    else if rank == 2 then Medal
    else Star
  }

  /** `getCardStyle(rank)` */
  function CardStyle(rank: nat): string {
    if rank == 0 then "from-white/20 to-white/15 border-white/40 shadow-2xl shadow-white/20"
    else if rank == 1 then "from-white/15 to-white/10 border-white/30"
    else if rank == 2 then "from-white/12 to-white/8 border-white/25"
    else "from-white/10 to-white/5 border-white/20"
  }

  /** The four card styles differ pairwise. */
  lemma CardStylesDiffer()
    ensures CardStyle(0) != CardStyle(1) && CardStyle(0) != CardStyle(2) && CardStyle(0) != CardStyle(3)
    ensures CardStyle(1) != CardStyle(2) && CardStyle(1) != CardStyle(3) && CardStyle(2) != CardStyle(3)
  {
    assert |CardStyle(0)| == 68 && |CardStyle(1)| == 41 && |CardStyle(2)| == 40 && |CardStyle(3)| == 40;
    assert CardStyle(2)[39] == '5' && CardStyle(3)[39] == '0';
  }

  /** The first place alone has the trophy, the next two a medal and the rest
      a star; the first three cards each have their own style and every
      later card shares one. */
  lemma TopThreeStandOut(rank: nat, other: nat)
    ensures RankIconFor(rank) == Trophy <==> rank == 0
    ensures RankIconFor(rank) == Medal <==> 1 <= rank <= 2
    ensures RankIconFor(rank) == Star <==> rank >= 3
    ensures rank < 3 && rank != other ==> CardStyle(rank) != CardStyle(other)
    ensures rank >= 3 && other >= 3 ==> CardStyle(rank) == CardStyle(other)
  {
    CardStylesDiffer();
  }

  // ------------------------------------------------------------ the rows

  /** One card of the list: the rank number shown (`index + 1`), the name,
      the points shown (`user.rewardPoints || 0`), the icon and the style. */
  datatype Row = Row(rank: nat, name: string, points: int, icon: RankIcon, style: string)

  function Rows(users: seq<User>): (rows: seq<Row>)
    ensures |rows| == |users|
    ensures forall i :: 0 <= i < |users| ==>
              rows[i] == Row(i + 1, users[i].name, Points(users[i]), RankIconFor(i), CardStyle(i))
  {
    seq(|users|, i requires 0 <= i < |users| =>
      Row(i + 1, users[i].name, Points(users[i]), RankIconFor(i), CardStyle(i)))
  }

  /** On the ranked list the rank numbers run 1, 2, 3, ... without gaps,
      the points shown never increase down the list, and a user shown above
      another never has fewer points. The trophy is on the first card only. */
  lemma RowsOfRanking(all: seq<User>)
    ensures var rows := Rows(SortDesc(all, Points));
      && |rows| == |all|
      && (forall i :: 0 <= i < |rows| ==> rows[i].rank == i + 1)
      && (forall i, j :: 0 <= i < j < |rows| ==> rows[i].points >= rows[j].points)
      && (forall i :: 0 <= i < |rows| ==> (rows[i].icon == Trophy <==> rows[i].rank == 1))
  {
    var ranked := SortDesc(all, Points);
    SortDescSorted(all, Points);
    var rows := Rows(ranked);
    forall i, j | 0 <= i < j < |rows| ensures rows[i].points >= rows[j].points {
      assert rows[i].points == Points(ranked[i]) && rows[j].points == Points(ranked[j]);
    }
  }
}
