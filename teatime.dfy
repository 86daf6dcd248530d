/** The teatime election of the TopHat plugin: a ledger of votes per location, a tally,
    the `teatime` command, and the elector's resolve step. */
module Teatime {
  import opened Wrappers
  import opened Text
  import opened Sorting

  /** A caller as the chat network names it (the whole `nick!mask` source). */
  type Source = string
  type Location = string

  /** `teatime_election['locations']`: each location with its voters in voting order. */
  type Ledger = map<Location, seq<Source>>
  type Entry = (Location, seq<Source>)

  /** The election document. A key missing from the document is `None`
      (`started` missing reads as false). */
  datatype Election = Election(started: bool, expiry: Option<int>, locations: Option<Ledger>)

  /** What the loader puts in place of a missing or unparsable document. */
  const FALLBACK: Election := Election(false, None, Some(map[]))

  /** The empty dict the plugin starts with: not started, no expiry, no ledger. */
  const EMPTY: Election := Election(false, None, None)

  /** The Python exceptions that escape the command. */
  datatype Fault = KeyError | ValueError

  /** The lines the plugin replies with. */
  datatype Message =
    | Welcome | Hobbit | Apology | NotAsked | Alone | HelpText
    | Currently(loc: Location) | Choice(loc: Location) | Chosen(loc: Location, votes: nat)
    | Silence

  /** The text of each line; `HelpText` is the command's docstring and `Silence` is the
      empty line that joining no lines gives. */
  function Render(m: Message): string {
    match m
    case Welcome => "The sir would like tea?"
    case Hobbit => "Sir, please be reasonable... two teatimes in one day? Are you a hobbit?"
    case Apology => "My apologies, sir, perhaps it wasn't teatime after all."
    case NotAsked => "You haven't asked for tea, sir."
    case Alone => "Looks like you're taking tea alone, sir."
    case HelpText => "Start a poll for 'teatime' locations.\n            (ex: .teatime start [at] => start a teatime vote for [at] minutes\n                                        defaults to 10 minutes.\n                 .teatime suggest [location] => suggest a location\n                 .teatime [location] => vote for a location)\n        "
    case Currently(loc) => "Currently, your guests would like tea at " + loc + "."
    case Choice(loc) => "Very good, sir, " + loc + " is an excellent choice."
    case Chosen(loc, votes) => "Sir, your guests have chosen " + loc + " with " + IntToString(votes) + " votes"
    case Silence => ""
  }

  // ---------------------------------------------------------------------------
  // The vote ledger

  /** Python's `list.remove(s)`: drops the first occurrence of `s`, if any. */
  function RemoveFirst(voters: seq<Source>, s: Source): (r: seq<Source>)
    ensures multiset(r) == multiset(voters) - multiset{s}
    ensures s !in voters ==> r == voters
  {
    if voters == [] then []
    else
      assert voters == [voters[0]] + voters[1..];
      if voters[0] == s then voters[1..] else [voters[0]] + RemoveFirst(voters[1..], s)
  }

  /** It is the first occurrence, at `i`, that goes, and the others keep their order. */
  lemma {:induction false} RemoveFirstAt(voters: seq<Source>, s: Source, i: nat)
    requires i < |voters| && voters[i] == s
    requires forall k :: 0 <= k < i ==> voters[k] != s
    ensures RemoveFirst(voters, s) == voters[..i] + voters[i + 1..]
  {
    if i == 0 {
      assert voters[..0] + voters[1..] == voters[1..];
    } else {
      RemoveFirstAt(voters[1..], s, i - 1);
      RemoveFirstPast(voters, s);
      CutAfterHead(voters, i);
    }
  }

  lemma RemoveFirstPast(voters: seq<Source>, s: Source)
    requires voters != [] && voters[0] != s
    ensures RemoveFirst(voters, s) == [voters[0]] + RemoveFirst(voters[1..], s)
  {
  }

  lemma CutAfterHead(xs: seq<Source>, i: nat)
    requires 0 < i < |xs|
    ensures xs[..i] + xs[i + 1..] == [xs[0]] + (xs[1..][..i - 1] + xs[1..][i..])
  {
  }

  /** Removing `s` empties a list exactly when the list holds `s` alone. */
  lemma {:induction false} RemoveFirstEmpties(voters: seq<Source>, s: Source)
    ensures (s in voters && RemoveFirst(voters, s) == []) <==> voters == [s]
  {
    if s in voters && RemoveFirst(voters, s) == [] {
      assert |multiset(voters)| == 1 by {
        assert multiset(voters)[s] >= 1;
        assert multiset(voters) - multiset{s} == multiset{};
      }
      assert |voters| == 1;
    }
    if voters == [s] {
      assert voters[1..] == [];
    }
  }

  /** The ledger once the loop over the locations has visited those in `done`: `s` is
      removed from each visited list holding it, and a list that this empties (one that
      held `s` alone) is popped. */
  function Withdrawn(L: Ledger, s: Source, done: set<Location>): (w: Ledger)
    ensures w.Keys <= L.Keys
  {
    map k | k in L && !(k in done && L[k] == [s]) ::
      if k in done && s in L[k] then RemoveFirst(L[k], s) else L[k]
  }

  /** One turn of the loop in `__suggest`: visiting `k` takes `s` out of its list, and
      pops the list if that empties it. */
  lemma WithdrawStep(L: Ledger, s: Source, done: set<Location>, k: Location)
    requires k in L && k !in done
    ensures var w := Withdrawn(L, s, done);
      && k in w && w[k] == L[k]
      && Withdrawn(L, s, done + {k}) ==
         if s !in L[k] then w
         else if RemoveFirst(L[k], s) == [] then w[k := RemoveFirst(L[k], s)] - {k}
         else w[k := RemoveFirst(L[k], s)]
  {
    var w := Withdrawn(L, s, done);
    var w' := Withdrawn(L, s, done + {k});
    var v := if s !in L[k] then w
             else if RemoveFirst(L[k], s) == [] then w[k := RemoveFirst(L[k], s)] - {k}
             else w[k := RemoveFirst(L[k], s)];
    RemoveFirstEmpties(L[k], s);
    forall j ensures (j in w' <==> j in v) && (j in w' ==> w'[j] == v[j]) {
    }
    assert w' == v;
  }

  /** `__suggest`: `s` takes back its vote everywhere, then is appended to `loc`'s voters. */
  function Vote(L: Ledger, s: Source, loc: Location): (r: Ledger)
    ensures r.Keys == Withdrawn(L, s, L.Keys).Keys + {loc}
    ensures r[loc] != [] && r[loc][|r[loc]| - 1] == s
  {
    var w := Withdrawn(L, s, L.Keys);
    w[loc := (if loc in w then w[loc] else []) + [s]]
  }

  ghost predicate NoDuplicates(xs: seq<Source>) {
    forall i, j :: 0 <= i < j < |xs| ==> xs[i] != xs[j]
  }

  /** Every list is non-empty and every source votes at most once in the whole ledger. */
  ghost predicate ValidLedger(L: Ledger) {
    && (forall k :: k in L ==> L[k] != [] && NoDuplicates(L[k]))
    && (forall k1, k2 :: k1 in L && k2 in L && k1 != k2 ==> Disjoint(L[k1], L[k2]))
  }

  ghost predicate Disjoint(a: seq<Source>, b: seq<Source>) {
    forall v :: v in a ==> v !in b
  }

  /** Everyone who has a vote somewhere in the ledger. */
  ghost function Voters(L: Ledger): set<Source> {
    set k, v | k in L && v in L[k] :: v
  }

  lemma {:induction false} RemoveFirstNoDuplicates(xs: seq<Source>, s: Source)
    requires NoDuplicates(xs)
    ensures NoDuplicates(RemoveFirst(xs, s)) && s !in RemoveFirst(xs, s)
  {
    if xs != [] && xs[0] != s {
      RemoveFirstNoDuplicates(xs[1..], s);
      var r := RemoveFirst(xs[1..], s);
      assert RemoveFirst(xs, s) == [xs[0]] + r;
      assert xs[0] !in r by {
        assert xs[0] !in xs[1..];
        assert multiset(r)[xs[0]] <= multiset(xs[1..])[xs[0]];
      }
    } else if xs != [] {
      assert s !in xs[1..];
    }
  }

  lemma RemoveFirstMembers(xs: seq<Source>, s: Source, v: Source)
    requires v != s
    ensures v in RemoveFirst(xs, s) <==> v in xs
  {
    assert multiset(RemoveFirst(xs, s))[v] == multiset(xs)[v];
  }

  lemma {:induction false} RemoveFirstAppended(xs: seq<Source>, s: Source)
    requires s !in xs
    ensures RemoveFirst(xs + [s], s) == xs
    decreases |xs|
  {
    var ys := xs + [s];
    if xs == [] {
      assert ys == [s];
    } else {
      assert ys[0] == xs[0] && xs[0] != s;
      assert ys[1..] == xs[1..] + [s];
      assert s !in xs[1..];
      RemoveFirstAppended(xs[1..], s);
      assert RemoveFirst(ys, s) == [xs[0]] + xs[1..];
      assert xs == [xs[0]] + xs[1..];
    }
  }

  /** Taking back the vote of `s` keeps the ledger valid and leaves `s` nowhere. */
  lemma WithdrawValid(L: Ledger, s: Source)
    requires ValidLedger(L)
    ensures var w := Withdrawn(L, s, L.Keys);
      && ValidLedger(w)
      && (forall k :: k in w ==> s !in w[k])
      && (forall k, v :: k in w && v in w[k] ==> k in L && v in L[k])
  {
    var w := Withdrawn(L, s, L.Keys);
    forall k | k in w
      ensures w[k] != [] && NoDuplicates(w[k]) && s !in w[k]
      ensures forall v :: v in w[k] ==> v in L[k]
    {
      RemoveFirstNoDuplicates(L[k], s);
      forall v | v in w[k] ensures v in L[k] {
        if v != s { RemoveFirstMembers(L[k], s, v); }
      }
    }
    forall k1, k2 | k1 in w && k2 in w && k1 != k2 ensures Disjoint(w[k1], w[k2]) {
      assert Disjoint(L[k1], L[k2]);
    }
  }

  /** Appending a voter found in no list keeps a ledger valid. */
  lemma AppendVoter(w: Ledger, s: Source, loc: Location)
    requires ValidLedger(w) && forall k :: k in w ==> s !in w[k]
    ensures var x := if loc in w then w[loc] else [];
      && ValidLedger(w[loc := x + [s]])
      && s !in x
  {
    var x := if loc in w then w[loc] else [];
    var r := w[loc := x + [s]];
    assert NoDuplicates(x + [s]) by {
      forall i, j | 0 <= i < j < |x + [s]| ensures (x + [s])[i] != (x + [s])[j] {
        if j == |x| { assert (x + [s])[i] == x[i]; }
        else { assert (x + [s])[i] == x[i] && (x + [s])[j] == x[j]; }
      }
    }
    forall k1, k2 | k1 in r && k2 in r && k1 != k2 ensures Disjoint(r[k1], r[k2]) {
      if k1 == loc {
        forall v | v in r[k1] ensures v !in r[k2] {
          if v != s { assert v in x; }
        }
      } else if k2 == loc {
        forall v | v in r[k1] ensures v !in r[k2] {
          assert v in w[k1];
          assert v != s;
        }
      } else {
        assert Disjoint(w[k1], w[k2]);
      }
    }
  }

  /** After a vote by `s` for `loc`: `s` is the last voter of `loc` and votes nowhere
      else, every source still votes at most once, and no location is left empty. */
  lemma VoteRecords(L: Ledger, s: Source, loc: Location)
    requires ValidLedger(L)
    ensures var r := Vote(L, s, loc);
      && ValidLedger(r)
      && loc in r && r[loc] != [] && r[loc][|r[loc]| - 1] == s
      && s !in r[loc][..|r[loc]| - 1]
      && (forall k :: k in r && k != loc ==> s !in r[k])
  {
    var w := Withdrawn(L, s, L.Keys);
    WithdrawValid(L, s);
    AppendVoter(w, s, loc);
    var x := if loc in w then w[loc] else [];
    assert (x + [s])[..|x|] == x;
  }

  /** A vote changes no list but the voter's old and new ones: every other list keeps
      its voters in order, a list holding only the voter is deleted, and the new
      location's list ends with the voter. */
  lemma VoteKeepsOthers(L: Ledger, s: Source, loc: Location)
    ensures var r := Vote(L, s, loc);
      && (forall k :: k != loc ==> (k in r <==> k in L && L[k] != [s]))
      && (forall k :: k in r && k != loc ==> r[k] == RemoveFirst(L[k], s))
      && r[loc] == (if loc in L then RemoveFirst(L[loc], s) else []) + [s]
  {
    var w := Withdrawn(L, s, L.Keys);
    var r := Vote(L, s, loc);
    forall k | k != loc ensures k in r <==> k in L && L[k] != [s] {
      assert k in r <==> k in w;
    }
    forall k | k in r && k != loc ensures r[k] == RemoveFirst(L[k], s) {
      assert r[k] == w[k];
    }
    if loc in L && L[loc] == [s] {
      assert [s][1..] == [];
      assert RemoveFirst(L[loc], s) == [];
    }
  }

  /** A vote adds its voter to the electorate and takes nobody else's vote away. */
  lemma VoteVoters(L: Ledger, s: Source, loc: Location)
    ensures Voters(Vote(L, s, loc)) == Voters(L) + {s}
  {
    var w := Withdrawn(L, s, L.Keys);
    var r := Vote(L, s, loc);
    assert s in r[loc];
    forall v | v in Voters(r) ensures v in Voters(L) + {s} {
      var k :| k in r && v in r[k];
      if v != s {
        if k == loc {
          var x := if loc in w then w[loc] else [];
          assert v in x;
        }
        assert v in w[k];
        if k in L && s in L[k] { RemoveFirstMembers(L[k], s, v); }
      }
    }
    forall v | v in Voters(L) && v != s ensures v in Voters(r) {
      var k :| k in L && v in L[k];
      if s in L[k] {
        RemoveFirstMembers(L[k], s, v);
        assert L[k] != [s];
      }
      assert k in w && v in w[k];
      if k == loc {
        assert r[loc] == w[loc] + [s];
      }
      assert k in r && v in r[k];
    }
  }

  /** Voting again for the same location changes nothing. */
  lemma VoteAgain(L: Ledger, s: Source, loc: Location)
    requires ValidLedger(L)
    ensures Vote(Vote(L, s, loc), s, loc) == Vote(L, s, loc)
  {
    var r := Vote(L, s, loc);
    VoteRecords(L, s, loc);
    var x := r[loc][..|r[loc]| - 1];
    assert r[loc] == x + [s];
    VoteSettled(r, s, loc, x);
  }

  /** A vote for the list the voter already ends, and appears nowhere else in, changes
      nothing. */
  lemma VoteSettled(r: Ledger, s: Source, loc: Location, x: seq<Source>)
    requires loc in r && r[loc] == x + [s] && s !in x
    requires forall k :: k in r && k != loc ==> s !in r[k]
    ensures Vote(r, s, loc) == r
  {
    RemoveFirstAppended(x, s);
    var w := Withdrawn(r, s, r.Keys);
    var r2 := Vote(r, s, loc);
    if x == [] {
      assert loc !in w;
      assert r2[loc] == [] + [s];
    } else {
      assert w[loc] == x;
    }
    assert r2[loc] == r[loc];
    forall k ensures (k in r2 <==> k in r) && (k in r ==> r2[k] == r[k]) {
      if k in r && k != loc {
        assert s !in r[k];
      }
    }
    assert r2 == r;
  }

  // ---------------------------------------------------------------------------
  // The tally

  /** `locations.items()`, listed in the dictionary's iteration order `order`. */
  function Items(L: Ledger, order: seq<Location>): (entries: seq<Entry>)
    ensures forall i :: 0 <= i < |entries| ==> entries[i].0 in L && entries[i].1 == L[entries[i].0]
  {
    if order == [] then []
    else (if order[0] in L then [(order[0], L[order[0]])] else []) + Items(L, order[1..])
  }

  /** The items of an enumerated ledger are its entries, one per key, in `order`. */
  lemma {:induction false} ItemsInOrder(L: Ledger, order: seq<Location>)
    requires forall i :: 0 <= i < |order| ==> order[i] in L
    ensures Items(L, order) == seq(|order|, i requires 0 <= i < |order| => (order[i], L[order[i]]))
  {
    if order != [] {
      ItemsInOrder(L, order[1..]);
    }
  }

  /** The ordering of `sorted(..., key=lambda n: len(n[1]), reverse=True)`. */
  predicate MoreVotes(a: Entry, b: Entry) {
    |a.1| >= |b.1|
  }

  lemma MoreVotesPreorder()
    ensures Preorder(MoreVotes)
  {
  }

  /** `__sorted_votes`. */
  function SortedVotes(L: Ledger, order: seq<Location>): (v: seq<Entry>)
    ensures forall i, j :: 0 <= i < j < |v| ==> |v[i].1| >= |v[j].1|
  {
    MoreVotesPreorder();
    SortSorted(Items(L, order), MoreVotes);
    Sort(Items(L, order), MoreVotes)
  }

  /** The tally lists the ledger's entries, each once, from most to fewest voters. */
  lemma TallyOrdered(L: Ledger, order: seq<Location>)
    requires Enumerates(order, L)
    ensures var v := SortedVotes(L, order);
      && |v| == |L|
      && (forall i, j :: 0 <= i < j < |v| ==> |v[i].1| >= |v[j].1|)
      && (forall k :: k in L ==> (k, L[k]) in v)
      && (forall e :: e in v ==> e.0 in L && e.1 == L[e.0])
  {
    TallyMembers(L, order);
    TallySize(L, order);
  }

  lemma TallyMembers(L: Ledger, order: seq<Location>)
    requires Enumerates(order, L)
    ensures var v := SortedVotes(L, order);
      && (forall k :: k in L ==> (k, L[k]) in v)
      && (forall e :: e in v ==> e.0 in L && e.1 == L[e.0])
  {
    var items := Items(L, order);
    var v := SortedVotes(L, order);
    ItemsInOrder(L, order);
    forall e | e in v ensures e.0 in L && e.1 == L[e.0] {
      assert e in multiset(items);
    }
    forall k | k in L ensures (k, L[k]) in v {
      var i :| 0 <= i < |order| && order[i] == k;
      assert items[i] == (k, L[k]);
      assert (k, L[k]) in multiset(v);
    }
  }

  lemma TallySize(L: Ledger, order: seq<Location>)
    requires Enumerates(order, L)
    ensures |SortedVotes(L, order)| == |L|
  {
    ItemsInOrder(L, order);
    assert |SortedVotes(L, order)| == |order|;
    var keys := set i | 0 <= i < |order| :: order[i];
    assert keys == L.Keys;
    SizeOfDistinct(order);
  }

  lemma {:induction false} SizeOfDistinct(order: seq<Location>)
    requires forall i, j :: 0 <= i < j < |order| ==> order[i] != order[j]
    ensures |set i | 0 <= i < |order| :: order[i]| == |order|
  {
    if order != [] {
      var n := |order| - 1;
      var init := order[..n];
      SizeOfDistinct(init);
      assert (set i | 0 <= i < |order| :: order[i]) == (set i | 0 <= i < |init| :: init[i]) + {order[n]};
      assert order[n] !in (set i | 0 <= i < |init| :: init[i]);
    }
  }

  /** Ties go to dictionary order: the head of the tally is the first location in
      `order` among those with the most voters. */
  lemma TallyLeader(L: Ledger, order: seq<Location>, i: nat)
    requires Enumerates(order, L)
    requires i < |order| && forall k :: k in L ==> |L[k]| <= |L[order[i]]|
    requires forall j :: 0 <= j < i ==> |L[order[j]]| < |L[order[i]]|
    ensures SortedVotes(L, order) != [] && SortedVotes(L, order)[0] == (order[i], L[order[i]])
  {
    var items := Items(L, order);
    ItemsInOrder(L, order);
    MoreVotesPreorder();
    SortHead(items, MoreVotes, i);
  }

  // ---------------------------------------------------------------------------
  // The command

  /** The reply of `teatime` with no parameters. */
  function StatusReply(e: Election, order: seq<Location>): (r: Result<Message, Fault>)
    ensures !e.started ==> r == Ok(NotAsked)
    ensures e.started && e.locations.None? ==> r == Err(KeyError)
    ensures e.started && e.locations.Some? ==> r.Ok? && (r.value == Alone || r.value.Currently?)
    ensures e.started && e.locations.Some? && Enumerates(order, e.locations.value) ==>
      (r == Ok(Alone) <==> e.locations.value == map[])
    ensures r.Ok? && r.value.Currently? ==>
      var L := e.locations.value;
      e.locations.Some? && r.value.loc in L &&
      (Enumerates(order, L) ==> forall k :: k in L ==> |L[k]| <= |L[r.value.loc]|)
  {
    if !e.started then Ok(NotAsked)
    else if e.locations.None? then Err(KeyError)
    else
      var votes := SortedVotes(e.locations.value, order);
      if votes != [] then
        LeaderOfTally(e.locations.value, order);
        Ok(Currently(votes[0].0))
      else
        assert Enumerates(order, e.locations.value) ==> e.locations.value == map[] by {
          if Enumerates(order, e.locations.value) { TallyOrdered(e.locations.value, order); }
        }
        Ok(Alone)
  }

  /** The head of a non-empty tally is a location with the most voters. */
  lemma LeaderOfTally(L: Ledger, order: seq<Location>)
    requires SortedVotes(L, order) != []
    ensures var v := SortedVotes(L, order)[0];
      v.0 in L && v.1 == L[v.0] &&
      (Enumerates(order, L) ==> forall k :: k in L ==> |L[k]| <= |v.1|)
  {
    var v := SortedVotes(L, order);
    assert v[0] in multiset(Items(L, order));
    if Enumerates(order, L) {
      TallyOrdered(L, order);
      forall k | k in L ensures |L[k]| <= |v[0].1| {
        var i :| 0 <= i < |v| && v[i] == (k, L[k]);
        if i > 0 { assert |v[0].1| >= |v[i].1|; }
      }
    }
  }

  /** The minutes `start` asks for: `int(params[5:])`, or 10 when that slice is empty
      or does not parse. Nothing bounds it. */
  function StartMinutes(params: string): (minutes: int)
    ensures Drop(params, 5) == "" ==> minutes == 10
  {
    var rest := Drop(params, 5);
    if rest == "" then 10
    else match ParseInt(rest)
      case Some(n) => n
      case None => 10
  }

  /** Whatever follows `start`, when it has the shape of the number `n`, asks for `n`
      minutes; a text of no such shape asks for 10. */
  lemma StartMinutesParsed(params: string, n: int)
    ensures IntText(Drop(params, 5), n) ==> StartMinutes(params) == n
    ensures (forall m :: !IntText(Drop(params, 5), m)) ==> StartMinutes(params) == 10
  {
    var rest := Drop(params, 5);
    if IntText(rest, n) {
      ParseIntOfText(rest, n);
    }
    ParseIntText(rest);
  }

  /** `start N` asks for N minutes, whatever the sign of N; a bare `start` for 10. */
  lemma StartMinutesOf(n: int)
    ensures StartMinutes("start " + IntToString(n)) == n
    ensures StartMinutes("start") == 10
  {
    if n < 0 {
      StartMinutesNegative(-n);
    } else {
      var ds := NatToString(n);
      StartMinutesDigits(ds);
      NatToStringValue(n);
    }
    assert "start"[5..] == "";
  }

  lemma StartMinutesNegative(m: nat)
    requires m > 0
    ensures StartMinutes("start " + IntToString(-(m as int))) == -(m as int)
  {
    var ds := NatToString(m);
    assert "start " + IntToString(-(m as int)) == "start " + ['-'] + "" + ds;
    StartMinutesSigned('-', "", ds);
    NatToStringValue(m);
  }

  lemma StartMinutesDigits(ds: string)
    requires ds != "" && AllDigits(ds)
    ensures StartMinutes("start " + ds) == DigitsValue(ds)
  {
    assert Drop("start " + ds, 5) == " " + ds + "";
    ParseIntSpaced(" ", ds, "");
  }

  /** The sign may stand apart from the digits, as `int()` allows: `start - 5` asks for
      -5 minutes. */
  lemma StartMinutesSigned(sign: char, mid: string, ds: string)
    requires sign == '-' || sign == '+'
    requires AllStripped(mid, IsWhitespace) && ds != "" && AllDigits(ds)
    ensures StartMinutes("start " + [sign] + mid + ds) ==
      if sign == '-' then -(DigitsValue(ds) as int) else DigitsValue(ds) as int
  {
    var p := "start " + [sign] + mid + ds;
    assert Drop(p, 5) == " " + [sign] + mid + ds + "";
    ParseIntSignSpaced(" ", sign, mid, ds, "");
  }

  /** Which branch of `teatime` runs: the first of `start`, `stop`, `suggest`, `help`
      that occurs in the text, else the text is a location. */
  datatype Kind = Status | Start | Stop | Suggest | Help | Place

  function KindOf(params: Option<string>): (k: Kind)
    ensures k == Status <==> params.None?
    ensures k == Start <==> params.Some? && Contains(params.value, "start")
    ensures k == Stop <==> params.Some? && !Contains(params.value, "start") && Contains(params.value, "stop")
    ensures k == Suggest <==> params.Some? && !Contains(params.value, "start") && !Contains(params.value, "stop")
                              && Contains(params.value, "suggest")
    ensures k == Help <==> params.Some? && !Contains(params.value, "start") && !Contains(params.value, "stop")
                           && !Contains(params.value, "suggest") && Contains(params.value, "help")
  {
    match params
    case None => Status
    case Some(p) =>
      if Contains(p, "start") then Start
      else if Contains(p, "stop") then Stop
      else if Contains(p, "suggest") then Suggest
      else if Contains(p, "help") then Help
      else Place
  }

  /** The lines the command replies with, and whether it then spawns the elector. */
  datatype Reply = Reply(lines: seq<Message>, elect: bool)

  /** The location `suggest` votes for: the text after the word, spaces stripped. */
  function SuggestedLocation(parts: seq<string>): Location
    requires |parts| == 2
  {
    Trim(parts[1], IsSpaceChar)
  }

  /** `load_teatime`: the stored document, or the fallback when it is missing or unparsable. */
  function LoadTeatime(stored: Option<Election>): (e: Election)
    ensures stored.None? ==> e == FALLBACK && e.locations == Some(map[]) && !e.started
  {
    stored.GetOr(FALLBACK)
  }

  /** The outcome of a vote for `loc` by `s` on the election `e` as loaded, while the
      elector was `run0`, leaving the election `e2` and the flag `run2`: `KeyError` when
      the document has no ledger. */
  ghost predicate VotedFor(e: Election, run0: bool, s: Source, loc: Location,
                           e2: Election, run2: bool, r: Result<Reply, Fault>)
  {
    if e.locations.None? then r == Err(KeyError) && e2 == e && run2 == run0
    else && e2 == e.(locations := Some(Vote(e.locations.value, s, loc)))
         && run2 == run0 && r == Ok(Reply([Choice(loc)], !run0))
  }

  /** The status query changes nothing and replies with one of three lines. */
  ghost predicate StatusEffect(e: Election, run0: bool, order: seq<Location>,
                               e2: Election, run2: bool, r: Result<Reply, Fault>)
  {
    && e2 == e && run2 == run0
    && match StatusReply(e, order)
       case Ok(m) => r == Ok(Reply([m], !run0))
       case Err(f) => r == Err(f)
  }

  /** `start` when idle: started, now plus the minutes asked for, no votes yet; `start`
      while started changes nothing. */
  ghost predicate StartEffect(e: Election, run0: bool, params: string, now: int,
                              e2: Election, run2: bool, r: Result<Reply, Fault>)
  {
    && run2 == run0
    && if !e.started then
         && e2 == Election(true, Some(now + StartMinutes(params) * 60), Some(map[]))
         && r == Ok(Reply([Welcome], !run0))
       else e2 == e && r == Ok(Reply([Hobbit], !run0))
  }

  /** `stop` keeps the election as loaded, clears `running` and always spawns the elector. */
  ghost predicate StopEffect(e: Election, e2: Election, run2: bool, r: Result<Reply, Fault>) {
    e2 == e && !run2 && r == Ok(Reply([Apology, Silence], true))
  }

  /** `suggest`: the text must split around exactly one occurrence of the word; then a
      vote for what follows it, stripped of spaces. */
  ghost predicate SuggestEffect(e: Election, run0: bool, params: string, s: Source,
                                e2: Election, run2: bool, r: Result<Reply, Fault>)
  {
    var parts := Split(params, "suggest");
    if |parts| != 2 then r == Err(ValueError) && e2 == e && run2 == run0
    else VotedFor(e, run0, s, SuggestedLocation(parts), e2, run2, r)
  }

  /** What the `teatime` command does with the election `e` it loaded while the elector
      was `run0`: the election `e2` and elector flag `run2` it leaves, and its reply or
      exception. `help` alone does not spawn the elector; any text that names no command
      is a vote for that text verbatim. */
  ghost predicate CommandEffect(e: Election, run0: bool, params: Option<string>, source: Source,
                                now: int, order: seq<Location>,
                                e2: Election, run2: bool, r: Result<Reply, Fault>)
  {
    match KindOf(params)
    case Status => StatusEffect(e, run0, order, e2, run2, r)
    case Start => StartEffect(e, run0, params.value, now, e2, run2, r)
    case Stop => StopEffect(e, e2, run2, r)
    case Suggest => SuggestEffect(e, run0, params.value, source, e2, run2, r)
    case Help => e2 == e && run2 == run0 && r == Ok(Reply([HelpText], false))
    case Place => VotedFor(e, run0, source, params.value, e2, run2, r)
  }

  // ---------------------------------------------------------------------------
  // The elector

  /** One wake-up of the elector: no expiry (or an expiry of 0) makes it leave; before
      the deadline it waits; after it, it announces the head of the tally, if any. */
  datatype Tick = Bail | Wait | Fire(announcement: Option<Message>) | Crash

  predicate HasExpiry(e: Election) {
    e.expiry.Some? && e.expiry.value != 0
  }

  function Resolve(e: Election, now: int, order: seq<Location>): (t: Tick)
    ensures t == Bail <==> !HasExpiry(e)
    ensures t.Fire? <==> HasExpiry(e) && now > e.expiry.value && e.locations.Some?
    ensures t == Crash <==> HasExpiry(e) && now > e.expiry.value && e.locations.None?
    ensures t.Fire? && Enumerates(order, e.locations.value) ==>
      (t.announcement.Some? <==> e.locations.value != map[])
    ensures t.Fire? && t.announcement.Some? ==>
      var L := e.locations.value;
      exists loc :: loc in L && t.announcement.value == Chosen(loc, |L[loc]|) &&
                    (Enumerates(order, L) ==> forall k :: k in L ==> |L[k]| <= |L[loc]|)
  {
    if !HasExpiry(e) then Bail
    else if now <= e.expiry.value then Wait
    else if e.locations.None? then Crash
    else
      var L := e.locations.value;
      var votes := SortedVotes(L, order);
      if votes == [] then
        assert Enumerates(order, L) ==> L == map[] by {
          if Enumerates(order, L) { TallyOrdered(L, order); }
        }
        Fire(None)
      else
        LeaderOfTally(L, order);
        Fire(Some(Chosen(votes[0].0, |votes[0].1|)))
  }

  /** The plugin's teatime state. */
  class TopHat {
    /** `self.teatime_election`, as last loaded and updated. */
    var election: Election
    /** `self.running`: whether an elector is polling. */
    var running: bool
    /** The persisted `teatime` document; `None` when it is missing or unparsable. */
    var stored: Option<Election>

    constructor (persisted: Option<Election>)
      ensures election == EMPTY && !running && stored == persisted
    {
      election := EMPTY;
      running := false;
      stored := persisted;
    }

    /** `load_teatime`; writes the fallback back when it had to use it. */
    method Load()
      modifies this
      ensures election == LoadTeatime(old(stored))
      ensures stored == Some(election) && running == old(running)
    {
      if stored.None? {
        election := FALLBACK;
        stored := Some(election);
      } else {
        election := stored.value;
      }
    }

    /** `__suggest`: the loop over the locations, then the append. */
    method Suggest(location: Location, source: Source) returns (loc: Location)
      requires election.locations.Some?
      modifies this`election
      ensures loc == location
      ensures election == old(election).(locations := Some(Vote(old(election.locations.value), source, location)))
    {
      var locations := election.locations.value;
      ghost var L0 := locations;
      var keys := locations.Keys;
      while keys != {}
        invariant keys <= L0.Keys
        invariant election == old(election)
        invariant locations == Withdrawn(L0, source, L0.Keys - keys)
        decreases keys
      {
        var k :| k in keys;
        ghost var done := L0.Keys - keys;
        WithdrawStep(L0, source, done, k);
        if source in locations[k] {
          locations := locations[k := RemoveFirst(locations[k], source)];
          if locations[k] == [] {
            locations := locations - {k};
          }
        }
        keys := keys - {k};
        assert L0.Keys - keys == done + {k};
      }
      assert L0.Keys - keys == L0.Keys;
      locations := locations[location := (if location in locations then locations[location] else []) + [source]];
      election := election.(locations := Some(locations));
      loc := location;
    }

    /** A vote for `location`, and the reply it gets. */
    method VoteCommand(location: Location, source: Source) returns (r: Result<Reply, Fault>)
      modifies this`election
      ensures VotedFor(old(election), running, source, location, election, running, r)
    {
      if election.locations.None? {
        return Err(KeyError);
      }
      var loc := Suggest(location, source);
      r := Ok(Reply([Choice(loc)], !running));
    }

    /** The status query: the leading location, or that nobody voted, or that no
        election was started. */
    method StatusCommand(order: seq<Location>) returns (r: Result<Reply, Fault>)
      ensures StatusEffect(election, running, order, election, running, r)
    {
      var status := StatusReply(election, order);
      if status.Err? {
        return Err(status.error);
      }
      r := Ok(Reply([status.value], !running));
    }

    /** The `start` branch: opens the election unless it is already open. */
    method StartCommand(params: string, now: int) returns (r: Result<Reply, Fault>)
      modifies this`election
      ensures StartEffect(old(election), running, params, now, election, running, r)
    {
      if election.started {
        return Ok(Reply([Hobbit], !running));
      }
      var timer := StartMinutes(params);
      timer := timer * 60;
      election := election.(started := true);
      election := election.(expiry := Some(now + timer));
      election := election.(locations := Some(map[]));
      r := Ok(Reply([Welcome], !running));
    }

    /** The `stop` branch: apologises, clears `running` and hands `write_file` the dict
        `{'started': False}` rather than its JSON text, which leaves a document that does not
        decode; the election in memory is left as it is. Nothing is added to the reply lines, so
        the joined reply is the empty line, and the elector is spawned. */
    method StopCommand() returns (r: Result<Reply, Fault>)
      modifies this`running, this`stored
      ensures StopEffect(election, election, running, r) && stored.None?
    {
      running := false;
      stored := None;
      r := Ok(Reply([Apology, Silence], !running));
    }

    /** The `suggest` branch: the text must split around exactly one `suggest`; the
        location is what follows it, stripped of spaces. */
    method SuggestCommand(params: string, source: Source) returns (r: Result<Reply, Fault>)
      modifies this`election
      ensures SuggestEffect(old(election), running, params, source, election, running, r)
    {
      var parts := Split(params, "suggest");
      if |parts| != 2 {
        return Err(ValueError);
      }
      var loc := SuggestedLocation(parts);
      r := VoteCommand(loc, source);
    }

    /** The `teatime` command: load, dispatch, write the election back, reply. */
    method Teatime(params: Option<string>, source: Source, now: int, order: seq<Location>)
      returns (r: Result<Reply, Fault>)
      modifies this
      ensures CommandEffect(LoadTeatime(old(stored)), old(running), params, source, now, order,
                            election, running, r)
      // the election in memory is always what is stored afterwards
      ensures stored == Some(election)
      // the elector is spawned only when none is running
      ensures r.Ok? && r.value.elect ==> !running
    {
      Load();
      match KindOf(params) {
        case Status => r := StatusCommand(order);
        case Start => r := StartCommand(params.value, now);
        case Stop => r := StopCommand();
        case Suggest => r := SuggestCommand(params.value, source);
        case Help => r := Ok(Reply([HelpText], false));
        case Place => r := VoteCommand(params.value, source);
      }
      if r.Ok? {
        stored := Some(election);
      }
    }

    /** One pass of the elector's loop at time `now` over the election in memory; on
        leaving it clears `running` and writes the dict `{'started': False}`, which leaves a
        document that does not decode, so the next load falls back to a fresh ledger. */
    method ElectorPoll(now: int, order: seq<Location>) returns (tick: Tick)
      modifies this
      ensures tick == Resolve(old(election), now, order)
      ensures election == old(election)
      ensures tick.Bail? || tick.Fire? ==> !running && stored.None?
      ensures tick.Wait? || tick.Crash? ==> running && stored == old(stored)
    {
      if !HasExpiry(election) {
        running := false;
        stored := None;
        return Bail;
      }
      running := true;
      if now > election.expiry.value {
        if election.locations.None? {
          return Crash;
        }
        var votes := SortedVotes(election.locations.value, order);
        var announcement: Option<Message> := None;
        if votes != [] {
          announcement := Some(Chosen(votes[0].0, |votes[0].1|));
        }
        running := false;
        stored := None;
        return Fire(announcement);
      }
      return Wait;
    }
  }
}
