/**
 * The ranking behind `user_mentions` in main.py:
 * `df["user"].value_counts().drop("braedynl_")[:top]`. Each user is counted,
 * the users are ranked by count, highest first, the streamer's own account
 * is dropped (a missing name is a `KeyError`), and the first `top` entries
 * are kept with Python's slice semantics.
 */
module Mentions {
  import opened Results
  import opened Counting

  /** The account `drop` removes. */
  const EXCLUDED := "braedynl_"

  /** What `drop` raises when the name is not in the index. */
  datatype MentionsError = KeyError(key: string)

  /** One entry of the ranking: a user (the index label) and how many rows they sent. */
  datatype Frequency = Frequency(user: string, count: nat)

  /** Counts never increase along the ranking. */
  predicate Ranked(fs: seq<Frequency>)
  {
    forall i, j :: 0 <= i < j < |fs| ==> fs[i].count >= fs[j].count
  }

  /** No user appears twice. */
  predicate Unique(fs: seq<Frequency>)
  {
    forall i, j :: 0 <= i < j < |fs| ==> fs[i].user != fs[j].user
  }

  /** The users of a ranking (its index). */
  function Users(fs: seq<Frequency>): set<string>
  {
    set f | f in fs :: f.user
  }

  /** The users in order of first appearance, each once. */
  function Distinct(users: seq<string>): (r: seq<string>)
    ensures forall u :: u in r <==> u in users
    ensures forall i, j :: 0 <= i < j < |r| ==> r[i] != r[j]
  {
    if users == [] then []
    else
      var init := Distinct(users[..|users| - 1]);
      var last := users[|users| - 1];
      assert forall u :: u in users <==> u in users[..|users| - 1] || u == last;
      if last in init then init else init + [last]
  }

  /** One entry per name, counted by `counts`. */
  function Entries(names: seq<string>, counts: map<string, nat>): (r: seq<Frequency>)
    ensures |r| == |names|
    ensures forall i :: 0 <= i < |r| ==> r[i] == Frequency(names[i], CountOf(counts, names[i]))
  {
    seq(|names|, i requires 0 <= i < |names| => Frequency(names[i], CountOf(counts, names[i])))
  }

  /** Puts `e` into a ranking after every entry that counts more than it does. */
  function Insert(e: Frequency, ranked: seq<Frequency>): (r: seq<Frequency>)
    ensures multiset(r) == multiset(ranked) + multiset{e}
  {
    if ranked == [] then [e]
    else if e.count >= ranked[0].count then [e] + ranked
    else
      assert ranked == [ranked[0]] + ranked[1..];
      [ranked[0]] + Insert(e, ranked[1..])
  }

  /** Ranks entries by count, highest first (insertion sort; equal counts keep their order). */
  function Rank(fs: seq<Frequency>): (r: seq<Frequency>)
    ensures multiset(r) == multiset(fs)
  {
    if fs == [] then []
    else
      assert fs == [fs[0]] + fs[1..];
      Insert(fs[0], Rank(fs[1..]))
  }

  lemma {:induction false} InsertRanked(e: Frequency, ranked: seq<Frequency>)
    requires Ranked(ranked)
    ensures Ranked(Insert(e, ranked))
  {
    if ranked != [] && e.count < ranked[0].count {
      var rest := Insert(e, ranked[1..]);
      InsertRanked(e, ranked[1..]);
      forall k | 0 <= k < |rest| ensures rest[k].count <= ranked[0].count {
        assert rest[k] in multiset(ranked[1..]) + multiset{e};
        if rest[k] != e {
          var m :| 1 <= m < |ranked| && ranked[m] == rest[k];
        }
      }
      assert Insert(e, ranked) == [ranked[0]] + rest;
    }
  }

  lemma {:induction false} RankRanked(fs: seq<Frequency>)
    ensures Ranked(Rank(fs))
  {
    if fs != [] {
      RankRanked(fs[1..]);
      InsertRanked(fs[0], Rank(fs[1..]));
    }
  }

  /** Two sequences with the same elements have the same users, and one is unique when the other is. */
  lemma SameElements(xs: seq<Frequency>, ys: seq<Frequency>)
    requires multiset(xs) == multiset(ys)
    ensures Users(xs) == Users(ys)
    ensures Unique(xs) ==> Unique(ys)
  {
    assert forall f :: f in xs <==> f in ys by {
      forall f ensures f in xs <==> f in ys {
        assert f in xs <==> f in multiset(xs);
        assert f in ys <==> f in multiset(ys);
      }
    }
    if Unique(xs) {
      forall i, j | 0 <= i < j < |ys| ensures ys[i].user != ys[j].user {
        if ys[i] == ys[j] {
          TwiceInMultiset(ys, i, j);
          UniqueCountsOne(xs, ys[i]);
        } else {
          assert ys[i] in multiset(xs) && ys[j] in multiset(xs);
          var a :| 0 <= a < |xs| && xs[a] == ys[i];
          var b :| 0 <= b < |xs| && xs[b] == ys[j];
        }
      }
    }
  }

  lemma UniqueCountsOne(xs: seq<Frequency>, f: Frequency)
    requires Unique(xs)
    ensures multiset(xs)[f] <= 1
  {
    if xs != [] {
      assert xs == [xs[0]] + xs[1..];
      UniqueCountsOne(xs[1..], f);
      if xs[0] == f {
        assert f !in xs[1..];
      }
    }
  }

  lemma TwiceInMultiset(ys: seq<Frequency>, i: nat, j: nat)
    requires i < j < |ys| && ys[i] == ys[j]
    ensures multiset(ys)[ys[i]] >= 2
  {
    assert ys == ys[..i] + [ys[i]] + ys[i + 1..j] + [ys[j]] + ys[j + 1..];
  }

  /** `value_counts()`: one entry per user with the number of rows they sent, ranked. */
  function ValueCounts(users: seq<string>): (r: seq<Frequency>)
    ensures Ranked(r) && Unique(r)
    ensures Users(r) == set u | u in users
    ensures forall f :: f in r ==> f.count == multiset(users)[f.user] && f.count >= 1
  {
    var es := Entries(Distinct(users), Tally(users));
    EntriesCount(users);
    var r := Rank(es);
    RankRanked(es);
    SameElements(es, r);
    forall f | f in r ensures f in es {
      assert f in multiset(r);
    }
    r
  }

  /** The unranked entries: unique, covering every user, each counting that user's rows. */
  lemma EntriesCount(users: seq<string>)
    ensures var es := Entries(Distinct(users), Tally(users));
            && Unique(es)
            && Users(es) == (set u | u in users)
            && forall f :: f in es ==> f.count == multiset(users)[f.user] && f.count >= 1
  {
    var names := Distinct(users);
    var es := Entries(names, Tally(users));
    forall u | u in users ensures u in Users(es) {
      var i :| 0 <= i < |names| && names[i] == u;
      assert es[i] in es;
    }
    forall f | f in es ensures f.user in users && f.count == multiset(users)[f.user] {
      var i :| 0 <= i < |es| && es[i] == f;
      assert names[i] in names;
    }
  }

  /** The entries that are not `name`'s, in order. */
  function Without(fs: seq<Frequency>, name: string): (r: seq<Frequency>)
    ensures forall f :: f in r <==> f in fs && f.user != name
  {
    if fs == [] then []
    else
      assert fs == [fs[0]] + fs[1..];
      if fs[0].user == name then Without(fs[1..], name) else [fs[0]] + Without(fs[1..], name)
  }

  lemma {:induction false} WithoutUsers(fs: seq<Frequency>, name: string)
    ensures Users(Without(fs, name)) == Users(fs) - {name}
  {
    if fs != [] {
      WithoutUsers(fs[1..], name);
    }
  }

  lemma {:induction false} WithoutRanked(fs: seq<Frequency>, name: string)
    requires Ranked(fs)
    ensures Ranked(Without(fs, name))
  {
    if fs != [] {
      var tail := fs[1..];
      assert Ranked(tail);
      WithoutRanked(tail, name);
      var rest := Without(tail, name);
      if fs[0].user != name {
        forall k | 0 <= k < |rest| ensures rest[k].count <= fs[0].count {
          assert rest[k] in rest;
          var m :| 0 <= m < |tail| && tail[m] == rest[k];
          assert fs[m + 1] == rest[k];
        }
        RankedCons(fs[0], rest);
      }
    }
  }

  lemma {:induction false} WithoutUnique(fs: seq<Frequency>, name: string)
    requires Unique(fs)
    ensures Unique(Without(fs, name))
  {
    if fs != [] {
      var tail := fs[1..];
      assert Unique(tail);
      WithoutUnique(tail, name);
      var rest := Without(tail, name);
      if fs[0].user != name {
        forall k | 0 <= k < |rest| ensures rest[k].user != fs[0].user {
          assert rest[k] in rest;
          var m :| 0 <= m < |tail| && tail[m] == rest[k];
          assert fs[m + 1] == rest[k];
        }
        UniqueCons(fs[0], rest);
      }
    }
  }

  /** An entry counting at least as much as every entry of a ranking can lead it. */
  lemma RankedCons(a: Frequency, rest: seq<Frequency>)
    requires Ranked(rest) && forall k :: 0 <= k < |rest| ==> rest[k].count <= a.count
    ensures Ranked([a] + rest)
  {
  }

  /** An entry whose user is not in a unique sequence can lead it. */
  lemma UniqueCons(a: Frequency, rest: seq<Frequency>)
    requires Unique(rest) && forall k :: 0 <= k < |rest| ==> rest[k].user != a.user
    ensures Unique([a] + rest)
  {
  }

  /** `drop(name)`: removes the label's entry, or raises `KeyError` when there is none. */
  function Drop(fs: seq<Frequency>, name: string): (r: Result<seq<Frequency>, MentionsError>)
    ensures r.Failure? <==> name !in Users(fs)
    ensures r.Failure? ==> r.error == KeyError(name)
    ensures r.Success? ==> r.value == Without(fs, name)
  {
    if name in Users(fs) then Success(Without(fs, name)) else Failure(KeyError(name))
  }

  /** `[:top]`: the first `top` entries; a negative `top` leaves out the last `-top`. */
  function Head(fs: seq<Frequency>, top: int): (r: seq<Frequency>)
    ensures |r| <= |fs| && r == fs[..|r|]
    ensures top >= 0 ==> |r| == if top < |fs| then top else |fs|
    ensures top < 0 ==> |r| == if |fs| + top > 0 then |fs| + top else 0
  {
    var n := if top >= 0 then top else |fs| + top;
    if n <= 0 then [] else if n < |fs| then fs[..n] else fs
  }

  /** The ranking `user_mentions` plots. */
  function TopUsers(users: seq<string>, top: int): (r: Result<seq<Frequency>, MentionsError>)
    ensures r.Failure? <==> EXCLUDED !in users
    ensures r.Failure? ==> r.error == KeyError(EXCLUDED)
    ensures r.Success? ==>
      && Ranked(r.value) && Unique(r.value)
      && EXCLUDED !in Users(r.value)
      && Users(r.value) <= set u | u in users
      && (forall f :: f in r.value ==> f.count == multiset(users)[f.user] && f.count >= 1)
      && (top >= 0 ==> |r.value| <= top)
  {
    var counts := ValueCounts(users);
    var dropped := Drop(counts, EXCLUDED);
    if dropped.Failure? then Failure(dropped.error)
    else
      var rest := dropped.value;
      WithoutUsers(counts, EXCLUDED);
      WithoutRanked(counts, EXCLUDED);
      WithoutUnique(counts, EXCLUDED);
      var r := Head(rest, top);
      PrefixKeeps(rest, |r|);
      Success(r)
  }

  lemma PrefixKeeps(fs: seq<Frequency>, k: nat)
    requires k <= |fs|
    ensures Ranked(fs) ==> Ranked(fs[..k])
    ensures Unique(fs) ==> Unique(fs[..k])
    ensures forall f :: f in fs[..k] ==> f in fs
    ensures Users(fs[..k]) <= Users(fs)
  {
    assert forall f :: f in fs[..k] ==> f in fs;
  }

  /**
   * Nobody left out of the ranking sent more rows than the last user in it, and
   * with a non-negative `top` a user is left out only when the ranking is full.
   */
  lemma {:induction false} OmittedCountNoMore(users: seq<string>, top: int)
    requires EXCLUDED in users
    ensures var r := TopUsers(users, top).value;
            forall u :: u in users && u != EXCLUDED && u !in Users(r) ==>
              && (r != [] ==> multiset(users)[u] <= r[|r| - 1].count)
              && (top >= 0 ==> |r| == top)
  {
    var counts := ValueCounts(users);
    var rest := Without(counts, EXCLUDED);
    WithoutUsers(counts, EXCLUDED);
    WithoutRanked(counts, EXCLUDED);
    var r := Head(rest, top);
    assert TopUsers(users, top).value == r;
    forall u | u in users && u != EXCLUDED && u !in Users(r)
      ensures r != [] ==> multiset(users)[u] <= r[|r| - 1].count
      ensures top >= 0 ==> |r| == top
    {
      assert u in Users(rest);
      var f :| f in rest && f.user == u;
      var j :| 0 <= j < |rest| && rest[j] == f;
      assert j >= |r|;
      assert f in counts;
      if r != [] {
        assert r[|r| - 1] == rest[|r| - 1];
      }
    }
  }
}
