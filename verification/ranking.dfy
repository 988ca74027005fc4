/** Ranking of the submitted answers by closeness to the correct value
    (SharpJackApi/Services/GameService.cs:213). `OrderBy` is a stable sort,
    so answers at the same distance keep their submission order. */
module Ranking {
  import opened Models

  /** How far an answer is from the correct value, `Math.Abs(value - correct)`. */
  function Distance(a: Answer, correct: int): nat {
    if a.value >= correct then a.value - correct else correct - a.value
  }

  /** Answers listed from the closest to the farthest. */
  ghost predicate Ranked(s: seq<Answer>, correct: int) {
    forall i, j :: 0 <= i < j < |s| ==> Distance(s[i], correct) <= Distance(s[j], correct)
  }

  /** The answers of `s` that lie at distance `d`, in their order in `s`. */
  function AtDistance(s: seq<Answer>, correct: int, d: nat): seq<Answer> {
    if |s| == 0 then []
    else if Distance(s[0], correct) == d then [s[0]] + AtDistance(s[1..], correct, d)
    else AtDistance(s[1..], correct, d)
  }

  /** Inserts `a` before the first answer that is at least as far away. */
  function Insert(a: Answer, s: seq<Answer>, correct: int): seq<Answer> {
    if |s| == 0 || Distance(a, correct) <= Distance(s[0], correct) then [a] + s
    else [s[0]] + Insert(a, s[1..], correct)
  }

  /** The answers sorted by distance by repeated insertion, keeping
      submission order among equally close answers (see `OrderByClosenessIsStableSort`). */
  function OrderByCloseness(s: seq<Answer>, correct: int): seq<Answer> {
    if |s| == 0 then [] else Insert(s[0], OrderByCloseness(s[1..], correct), correct)
  }

  /** `OrderByCloseness` is a stable sort by distance: the result is ordered
      from the closest to the farthest, it holds the same answers, and for
      every distance it lists the answers at that distance in exactly their
      submission order. */
  lemma {:induction false} OrderByClosenessIsStableSort(s: seq<Answer>, correct: int)
    ensures Ranked(OrderByCloseness(s, correct), correct)
    ensures multiset(OrderByCloseness(s, correct)) == multiset(s)
    ensures forall d: nat :: AtDistance(OrderByCloseness(s, correct), correct, d) == AtDistance(s, correct, d)
    decreases |s|
  {
    if |s| > 0 {
      var rest := OrderByCloseness(s[1..], correct);
      OrderByClosenessIsStableSort(s[1..], correct);
      InsertRanked(s[0], rest, correct);
      InsertMultiset(s[0], rest, correct);
      assert s == [s[0]] + s[1..];
      forall d: nat ensures AtDistance(Insert(s[0], rest, correct), correct, d) == AtDistance(s, correct, d) {
        InsertAtDistance(s[0], rest, correct, d);
      }
    }
  }

  lemma {:induction false} InsertRanked(a: Answer, s: seq<Answer>, correct: int)
    requires Ranked(s, correct)
    ensures Ranked(Insert(a, s, correct), correct)
    ensures |Insert(a, s, correct)| == |s| + 1
    ensures |s| > 0 ==> Insert(a, s, correct)[0] == a || Insert(a, s, correct)[0] == s[0]
    decreases |s|
  {
    if |s| == 0 || Distance(a, correct) <= Distance(s[0], correct) {
    } else {
      InsertRanked(a, s[1..], correct);
      var t := Insert(a, s[1..], correct);
      assert Insert(a, s, correct) == [s[0]] + t;
      assert forall k :: 0 <= k < |t| ==> Distance(s[0], correct) <= Distance(t[k], correct) by {
        InsertMultiset(a, s[1..], correct);
        forall k | 0 <= k < |t| ensures Distance(s[0], correct) <= Distance(t[k], correct) {
          assert t[k] in multiset(t);
          assert t[k] in multiset([a] + s[1..]);
          if t[k] != a {
            assert t[k] in s[1..];
          }
        }
      }
    }
  }

  lemma {:induction false} InsertMultiset(a: Answer, s: seq<Answer>, correct: int)
    ensures multiset(Insert(a, s, correct)) == multiset([a] + s)
    decreases |s|
  {
    if |s| == 0 || Distance(a, correct) <= Distance(s[0], correct) {
    } else {
      InsertMultiset(a, s[1..], correct);
      assert s == [s[0]] + s[1..];
    }
  }

  /** Inserting `a` only ever passes answers strictly closer than `a`, so it
      never overtakes an answer at its own distance. */
  lemma {:induction false} InsertAtDistance(a: Answer, s: seq<Answer>, correct: int, d: nat)
    ensures AtDistance(Insert(a, s, correct), correct, d)
         == if Distance(a, correct) == d then [a] + AtDistance(s, correct, d) else AtDistance(s, correct, d)
    decreases |s|
  {
    if |s| == 0 || Distance(a, correct) <= Distance(s[0], correct) {
      assert ([a] + s)[1..] == s;
    } else {
      InsertAtDistance(a, s[1..], correct, d);
      assert ([s[0]] + Insert(a, s[1..], correct))[1..] == Insert(a, s[1..], correct);
    }
  }

  lemma {:induction false} AtDistanceMembers(s: seq<Answer>, correct: int, d: nat)
    ensures forall x :: x in AtDistance(s, correct, d) ==> x in s && Distance(x, correct) == d
    decreases |s|
  {
    if |s| > 0 {
      AtDistanceMembers(s[1..], correct, d);
    }
  }

  lemma AtDistanceOfHead(s: seq<Answer>, correct: int)
    ensures |s| > 0 ==> AtDistance(s, correct, Distance(s[0], correct)) != []
  {
  }

  /** The stable ranking is unique: any two rankings that list the answers at
      each distance in the same order are the same sequence. Hence every
      stable sort by distance agrees with `OrderByCloseness`
      (`OrderByClosenessIsStableSort`). */
  lemma {:induction false} RankedUnique(a: seq<Answer>, b: seq<Answer>, correct: int)
    requires Ranked(a, correct) && Ranked(b, correct)
    requires forall d: nat :: AtDistance(a, correct, d) == AtDistance(b, correct, d)
    ensures a == b
    decreases |a|
  {
    AtDistanceOfHead(a, correct);
    AtDistanceOfHead(b, correct);
    if |a| == 0 || |b| == 0 {
      // a non-empty ranking has answers at the distance of its head
    } else {
      var da, db := Distance(a[0], correct), Distance(b[0], correct);
      AtDistanceMembers(a, correct, db);
      AtDistanceMembers(b, correct, da);
      assert AtDistance(b, correct, da)[0] in AtDistance(b, correct, da);
      assert AtDistance(a, correct, db)[0] in AtDistance(a, correct, db);
      assert da == db;
      assert a[0] == AtDistance(a, correct, da)[0] == AtDistance(b, correct, db)[0] == b[0];
      forall d: nat ensures AtDistance(a[1..], correct, d) == AtDistance(b[1..], correct, d) {
        if d == da {
          assert AtDistance(a, correct, d) == [a[0]] + AtDistance(a[1..], correct, d);
          assert AtDistance(b, correct, d) == [b[0]] + AtDistance(b[1..], correct, d);
          assert AtDistance(a[1..], correct, d) == AtDistance(a, correct, d)[1..];
          assert AtDistance(b[1..], correct, d) == AtDistance(b, correct, d)[1..];
        } else {
          assert AtDistance(a, correct, d) == AtDistance(a[1..], correct, d);
          assert AtDistance(b, correct, d) == AtDistance(b[1..], correct, d);
        }
      }
      RankedUnique(a[1..], b[1..], correct);
      assert a == [a[0]] + a[1..] && b == [b[0]] + b[1..];
    }
  }
}
