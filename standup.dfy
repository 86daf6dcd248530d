/** The Comedian plugin: who a caller is, the date rules of the scrum log, the log itself,
    and the table of cluster reservations with its `take`, `return`, `cluster` and
    `reservations` commands. */
module Standup {
  import opened Wrappers
  import opened Text
  import opened Sorting

  /** The Python exceptions that escape a command. */
  datatype Fault = ValueError | KeyError | AttributeError | TimeTravelException

  // ---------------------------------------------------------------------------
  // Who is calling

  /** `nick, mask = source.split('!')`, then `re.sub("\W+", '', mask)`. The unpacking
      raises `ValueError` unless the source holds exactly one `!`. */
  function UserOf(source: string): (r: Result<string, Fault>)
    ensures r.Ok? ==> forall i :: 0 <= i < |r.value| ==> IsWordChar(r.value[i])
    ensures r.Err? ==> r == Err(ValueError)
  {
    var parts := Split(source, "!");
    if |parts| != 2 then Err(ValueError) else Ok(WordChars(parts[1]))
  }

  /** A caller named `nick!mask` is known by the word characters of the mask, in order. */
  lemma UserOfSource(nick: string, mask: string)
    requires '!' !in nick && '!' !in mask
    ensures UserOf(nick + "!" + mask) == Ok(WordChars(mask))
  {
    assert Join([nick, mask], "!") == nick + "!" + mask;
    SplitJoinChar([nick, mask], '!');
  }

  /** The identity is derived exactly when the source holds one `!`. */
  lemma UserOfOneBang(source: string)
    ensures UserOf(source).Ok? <==> multiset(source)['!'] == 1
  {
    SplitCharCount(source, '!');
  }

  /** Deriving the identity from an identity changes nothing. */
  lemma UserOfIdempotent(nick: string, mask: string)
    requires '!' !in nick && '!' !in mask
    ensures UserOf(nick + "!" + WordChars(mask)) == UserOf(nick + "!" + mask)
  {
    UserOfSource(nick, mask);
    var user := WordChars(mask);
    assert '!' !in user;
    UserOfSource(nick, user);
    WordCharsIdempotent(mask);
  }

  // ---------------------------------------------------------------------------
  // Dates

  /** What `get_date` hands back: a day number, or for `'last week'` the text itself. */
  datatype When = Day(day: int) | Phrase(text: string)

  /** `get_date`, with `date.today()` given as the day number `today`. */
  function GetDate(arg: Option<string>, today: int): (r: Result<When, Fault>)
    ensures arg.None? || arg == Some("") ==> r == Ok(Day(today))
    ensures arg == Some("yesterday") ==> r == Ok(Day(today - 1))
    ensures arg == Some("last week") ==> r == Ok(Phrase("last week"))
    ensures r == Err(TimeTravelException) <==> arg == Some("tomorrow")
    ensures r.Ok? && r.value.Phrase? ==> arg == Some("last week")
    ensures r.Err? ==> r == Err(TimeTravelException) || r == Err(ValueError)
  {
    match arg
    case None => Ok(Day(today))
    case Some(s) =>
      if s == "" then Ok(Day(today))
      else if s == "yesterday" then Ok(Day(today - 1))
      else if s == "last week" then Ok(Phrase(s))
      else if s == "tomorrow" then Err(TimeTravelException)
      else match ParseInt(s)
        case Some(n) => Ok(Day(today - n))
        case None => Err(ValueError)
  }

  /** The text of any integer `n` names the day `n` days before today; a negative `n` names
      a day to come. */
  lemma GetDateDaysAgo(n: int, today: int)
    ensures GetDate(Some(IntToString(n)), today) == Ok(Day(today - n))
  {
    var s := IntToString(n);
    ParseIntToString(n);
    assert s[0] == '-' || IsDigit(s[0]) by {
      if n >= 0 { assert s == NatToString(n); }
    }
    GetDateNumber(s, n, today);
  }

  /** Python 2's `int` lets whitespace stand between the sign and the digits, so `- 3`
      names the day three days from now. */
  lemma GetDateSpacedSign(s: string, mid: string, ds: string, today: int)
    requires AllStripped(mid, IsWhitespace) && ds != "" && AllDigits(ds)
    requires s == "-" + mid + ds
    ensures GetDate(Some(s), today) == Ok(Day(today + DigitsValue(ds)))
  {
    var n := -(DigitsValue(ds) as int);
    assert GetDate(Some(s), today) == Ok(Day(today - n)) by {
      MinusText(mid, ds);
      GetDateText(s, n, today);
    }
  }

  /** Any text of the shape of the number `n`, leading whitespace included, names the day
      `n` days before today. */
  lemma GetDateInt(s: string, n: int, today: int)
    requires IntText(s, n)
    ensures GetDate(Some(s), today) == Ok(Day(today - n))
  {
    IntTextHead(s, n);
    NotAWord(s);
    ParseIntOfText(s, n);
    GetDateParsed(s, n, today);
  }

  /** A text that is none of the words and that `int` reads as `n` names the day `n` days
      before today. */
  lemma GetDateParsed(s: string, n: int, today: int)
    requires s != "" && s != "yesterday" && s != "last week" && s != "tomorrow"
    requires ParseInt(s) == Some(n)
    ensures GetDate(Some(s), today) == Ok(Day(today - n))
  {
  }

  /** A text that starts with whitespace, a sign or a digit is none of `get_date`'s words. */
  lemma NotAWord(s: string)
    requires s != "" && (IsWhitespace(s[0]) || s[0] == '-' || s[0] == '+' || IsDigit(s[0]))
    ensures s != "yesterday" && s != "last week" && s != "tomorrow"
  {
    assert s[0] != 'y' && s[0] != 'l' && s[0] != 't';
  }

  /** Any other text that is not one of the words `get_date` knows is `ValueError`. */
  lemma GetDateRejects(s: string, today: int)
    requires s != "" && s != "yesterday" && s != "last week" && s != "tomorrow"
    requires forall n :: !IntText(s, n)
    ensures GetDate(Some(s), today) == Err(ValueError)
  {
    ParseIntRejects(s);
  }

  /** A text that starts with a sign or a digit and has the shape of the number `n` names
      the day `n` days before today. */
  lemma GetDateText(s: string, n: int, today: int)
    requires s != "" && (s[0] == '-' || s[0] == '+' || IsDigit(s[0]))
    requires IntText(s, n)
    ensures GetDate(Some(s), today) == Ok(Day(today - n))
  {
    ParseIntOfText(s, n);
    GetDateNumber(s, n, today);
  }

  /** A text that starts with a sign or a digit, and that `int` reads as `n`, names the
      day `n` days before today. */
  lemma GetDateNumber(s: string, n: int, today: int)
    requires s != "" && (s[0] == '-' || s[0] == '+' || IsDigit(s[0]))
    requires ParseInt(s) == Some(n)
    ensures GetDate(Some(s), today) == Ok(Day(today - n))
  {
    NotAWord(s);
    GetDateParsed(s, n, today);
  }

  /** Such a text is none of the words `get_date` knows, so it goes to `int`. */
  lemma GetDateOther(s: string, today: int)
    requires s != "" && (s[0] == '-' || s[0] == '+' || IsDigit(s[0]))
    ensures GetDate(Some(s), today) == match ParseInt(s) case Some(m) => Ok(Day(today - m)) case None => Err(ValueError)
  {
    NotAWord(s);
  }

  // ---------------------------------------------------------------------------
  // The scrum log

  /** `scrums.split('\n') if scrums else []`: a missing or empty file is an empty log. */
  function LogLines(file: Option<string>): (lines: seq<string>)
    ensures forall k :: 0 <= k < |lines| ==> '\n' !in lines[k]
    ensures file.Some? && file.value != "" ==> |lines| == multiset(file.value)['\n'] + 1
  {
    if file.None? || file.value == "" then []
    else
      var lines := Split(file.value, "\n");
      forall k | 0 <= k < |lines| ensures '\n' !in lines[k] {
        SplitCharParts(file.value, '\n', k);
      }
      SplitCharCount(file.value, '\n');
      lines
  }

  /** `str.join('\n', scrum_data)`. */
  function LogFile(lines: seq<string>): (f: string)
    ensures (forall k :: 0 <= k < |lines| ==> '\n' !in lines[k]) && f != "" ==> LogLines(Some(f)) == lines
  {
    if lines != [] && forall k :: 0 <= k < |lines| ==> '\n' !in lines[k] then
      SplitJoinChar(lines, '\n');
      Join(lines, "\n")
    else Join(lines, "\n")
  }

  /** Writing back what was loaded reproduces the file. */
  lemma LogRoundTrip(file: Option<string>)
    ensures LogFile(LogLines(file)) == file.GetOr("")
  {
    if file.Some? && file.value != "" {
      JoinSplit(file.value, "\n");
    }
  }

  /** Appending one entry to the loaded log writes the old file, a newline and the entry
      (or the entry alone when the file was empty), and reading that file back gives the
      old lines followed by the entry. */
  lemma LogAppend(file: Option<string>, entry: string)
    requires entry != "" && '\n' !in entry
    ensures LogFile(LogLines(file) + [entry]) ==
      if file.GetOr("") == "" then entry else file.value + "\n" + entry
    ensures LogLines(Some(LogFile(LogLines(file) + [entry]))) == LogLines(file) + [entry]
  {
    var lines := LogLines(file);
    JoinAppend(lines, entry, "\n");
    LogRoundTrip(file);
    SplitJoinChar(lines + [entry], '\n');
  }

  /** `"[%s] <%s> %s" % (time.strftime("%H:%M"), user, params)`. */
  function Entry(clock: string, user: string, message: string): (e: string)
    ensures e != "" && e[0] == '['
    ensures '\n' !in clock && '\n' !in user && '\n' !in message ==> '\n' !in e
  {
    "[" + clock + "] <" + user + "> " + message
  }

  /** The docstring `standup` replies with when given nothing to log. */
  const STANDUP_DOC := "Add yesterday's events.\n        "

  /** What `scrum` replies: the log, that there is nothing for the day, or the refusal to
      travel in time. */
  datatype ScrumReply = Log(text: string) | NothingFor(day: int) | NoTimeTravel

  // ---------------------------------------------------------------------------
  // The cluster reservation table

  type ClusterId = string

  /** `{}` is an available cluster, `{'name': user, 'time': now}` a reserved one. */
  datatype Reservation = Available | Reserved(name: string, time: string)

  type Table = map<ClusterId, Reservation>

  /** The table a command leaves in the `clusters` file, and its reply or exception. */
  datatype Outcome = Outcome(table: Table, reply: Result<string, Fault>)

  const TAKE_DOC := "Reserve a cluster.\n\n        .take <id> => Create a reservation.\n        "

  /** `ret`'s docstring is empty. */
  const RETURN_DOC := ""

  /** A command's parameters are present and not empty (Python's `if params:`). */
  predicate Given(params: Option<string>) {
    params.Some? && params.value != ""
  }

  /** `take`: reserve the cluster named by the first word, if it exists and is free. */
  function TakeOp(T: Table, params: Option<string>, source: string, now: string): (o: Outcome)
    // take never adds or removes a cluster
    ensures o.table.Keys == T.Keys
    // and never takes over a reservation
    ensures forall k :: k in T && T[k].Reserved? ==> o.table[k] == T[k]
    // the one entry it may change is the named one, reserved by the caller at `now`
    ensures forall k :: k in T && o.table[k] != T[k] ==>
      && Given(params) && k == Token(params.value) && T[k] == Available
      && UserOf(source).Ok? && o.table[k] == Reserved(UserOf(source).value, now)
    ensures o.reply.Err? ==> o.table == T && o.reply == Err(ValueError)
    // each reply, case by case
    ensures !Given(params) ==> o == Outcome(T, Ok(TAKE_DOC))
    ensures Given(params) && Token(params.value) !in T ==>
      o == Outcome(T, Ok(Token(params.value) + " does not exist."))
    ensures Given(params) && Token(params.value) in T && T[Token(params.value)].Reserved? ==>
      var id := Token(params.value);
      o == Outcome(T, Ok(id + " is reserved by " + T[id].name + " since " + T[id].time))
    ensures Given(params) && Token(params.value) in T && T[Token(params.value)] == Available ==>
      var id := Token(params.value);
      o == match UserOf(source)
        case Ok(user) => Outcome(T[id := Reserved(user, now)], Ok("Reserved " + id))
        case Err(_) => Outcome(T, Err(ValueError))
  {
    if !Given(params) then Outcome(T, Ok(TAKE_DOC))
    else
      var id := Token(params.value);
      if id !in T then Outcome(T, Ok(id + " does not exist."))
      else match T[id]
        case Reserved(name, time) => Outcome(T, Ok(id + " is reserved by " + name + " since " + time))
        case Available =>
          match UserOf(source)
          case Err(f) => Outcome(T, Err(f))
          case Ok(user) => Outcome(T[id := Reserved(user, now)], Ok("Reserved " + id))
  }

  /** `ret`: free the cluster named by the first word, if the caller holds it or the text
      says `force` anywhere. The reservation's `name` is looked up before `force` is
      consulted, so returning a free cluster raises `KeyError`. */
  function ReturnOp(T: Table, params: Option<string>, source: string): (o: Outcome)
    // return never adds or removes a cluster
    ensures o.table.Keys == T.Keys
    // the one entry it may change is the named one, freed by its holder or by force
    ensures forall k :: k in T && o.table[k] != T[k] ==>
      && Given(params) && k == Token(params.value) && T[k].Reserved? && o.table[k] == Available
      && (Contains(params.value, "force") || UserOf(source) == Ok(T[k].name))
    ensures o.reply.Err? ==> o.table == T
    // the replies that do not depend on the reservation
    ensures !Given(params) ==> o == Outcome(T, Ok(RETURN_DOC))
    ensures Given(params) && Token(params.value) !in T ==>
      o == Outcome(T, Ok(Token(params.value) + " does not exist."))
    ensures Given(params) && Token(params.value) in T && UserOf(source).Err? ==>
      o == Outcome(T, Err(ValueError))
  {
    if !Given(params) then Outcome(T, Ok(RETURN_DOC))
    else
      var force := Contains(params.value, "force");
      var id := Token(params.value);
      if id !in T then Outcome(T, Ok(id + " does not exist."))
      else match UserOf(source)
        case Err(f) => Outcome(T, Err(f))
        case Ok(user) =>
          match T[id]
          case Available => Outcome(T, Err(KeyError))
          case Reserved(name, _) =>
            if user == name || force then
              Outcome(T[id := Available], Ok((if force then "Forced to give up " else "Gave up ") + id + "."))
            else Outcome(T, Ok("You cannot make me do that."))
  }

  /** A reserved cluster is freed exactly when its holder or `force` asks; otherwise the
      table stays as it was and the caller is refused. */
  lemma ReturnRule(T: Table, p: string, source: string)
    requires p != "" && Token(p) in T && T[Token(p)].Reserved? && UserOf(source).Ok?
    ensures var o := ReturnOp(T, Some(p), source);
      var allowed := UserOf(source).value == T[Token(p)].name || Contains(p, "force");
      && (allowed ==> o == Outcome(T[Token(p) := Available],
            Ok((if Contains(p, "force") then "Forced to give up " else "Gave up ") + Token(p) + ".")))
      && (!allowed ==> o == Outcome(T, Ok("You cannot make me do that.")))
  {
  }

  /** Returning a free cluster raises `KeyError`, even with `force`. */
  lemma ReturnAvailable(T: Table, p: string, source: string)
    requires p != "" && Token(p) in T && T[Token(p)] == Available && UserOf(source).Ok?
    ensures ReturnOp(T, Some(p), source) == Outcome(T, Err(KeyError))
  {
  }

  /** Taking a free cluster and returning it with the same words gives back the table. */
  lemma TakeThenReturn(T: Table, p: string, source: string, now: string)
    requires p != "" && Token(p) in T && T[Token(p)] == Available && UserOf(source).Ok?
    ensures var taken := TakeOp(T, Some(p), source, now);
      && taken.reply == Ok("Reserved " + Token(p))
      && taken.table == T[Token(p) := Reserved(UserOf(source).value, now)]
      && ReturnOp(taken.table, Some(p), source).table == T
  {
    var id := Token(p);
    var taken := TakeOp(T, Some(p), source, now);
    assert taken.table[id := Available] == T;
  }

  /** The line `cluster` lists for one cluster. */
  function Line(id: ClusterId, r: Reservation): string {
    id + ": " + (if r.Available? then "available" else "reserved")
  }

  /** Different clusters give different lines. */
  lemma LineInjective(id1: ClusterId, r1: Reservation, id2: ClusterId, r2: Reservation)
    requires Line(id1, r1) == Line(id2, r2)
    ensures id1 == id2
  {
    var x := Line(id1, r1);
    var a1 := if r1.Available? then "available" else "reserved";
    var a2 := if r2.Available? then "available" else "reserved";
    assert x[|x| - 1] == a1[|a1| - 1] && x[|x| - 1] == a2[|a2| - 1];
    assert a1 == a2;
    assert |id1| == |id2|;
    assert id1 == x[..|id1|] && id2 == x[..|id2|];
  }

  /** The lines of the clusters in the dictionary's iteration order `order`. */
  function Lines(T: Table, order: seq<ClusterId>): (lines: seq<string>)
    ensures |lines| <= |order|
    ensures (forall i :: 0 <= i < |order| ==> order[i] in T) ==> |lines| == |order|
  {
    if order == [] then []
    else (if order[0] in T then [Line(order[0], T[order[0]])] else []) + Lines(T, order[1..])
  }

  lemma {:induction false} LinesInOrder(T: Table, order: seq<ClusterId>)
    requires forall i :: 0 <= i < |order| ==> order[i] in T
    ensures Lines(T, order) == seq(|order|, i requires 0 <= i < |order| => Line(order[i], T[order[i]]))
  {
    if order != [] {
      LinesInOrder(T, order[1..]);
    }
  }

  /** The listing `cluster` replies with: the lines, sorted, joined by newlines. */
  function Listing(T: Table, order: seq<ClusterId>): string {
    Join(Sort(Lines(T, order), LexLe), "\n")
  }

  lemma LexOrder()
    ensures Preorder(LexLe) && Antisymmetric(LexLe)
  {
    forall a, b ensures LexLe(a, b) || LexLe(b, a) {
      LexLeTotal(a, b);
    }
    forall a, b, c | LexLe(a, b) && LexLe(b, c) ensures LexLe(a, c) {
      LexLeTransitive(a, b, c);
    }
    forall a, b | LexLe(a, b) && LexLe(b, a) ensures a == b {
      LexLeAntisymmetric(a, b);
    }
  }

  /** The listing is one line per cluster, in lexicographic order. */
  lemma ListingSorted(T: Table, order: seq<ClusterId>)
    requires Enumerates(order, T)
    ensures var s := Sort(Lines(T, order), LexLe);
      && Listing(T, order) == Join(s, "\n")
      && SortedBy(s, LexLe)
      && |s| == |T|
      && (forall k :: k in T ==> Line(k, T[k]) in s)
      && (forall x :: x in s ==> exists k :: k in T && x == Line(k, T[k]))
  {
    var lines := Lines(T, order);
    var s := Sort(lines, LexLe);
    LexOrder();
    SortSorted(lines, LexLe);
    LinesInOrder(T, order);
    forall x | x in s ensures exists k :: k in T && x == Line(k, T[k]) {
      assert x in multiset(lines);
      var i :| 0 <= i < |lines| && lines[i] == x;
      assert x == Line(order[i], T[order[i]]);
    }
    forall k | k in T ensures Line(k, T[k]) in s {
      var i :| 0 <= i < |order| && order[i] == k;
      assert lines[i] == Line(k, T[k]);
      assert Line(k, T[k]) in multiset(s);
    }
    assert |s| == |T| by {
      KeysCount(T, order);
    }
  }

  lemma {:induction false} KeysCount(T: Table, order: seq<ClusterId>)
    requires Enumerates(order, T)
    ensures |order| == |T|
    decreases |order|
  {
    if order != [] {
      var k := order[0];
      var rest := T - {k};
      assert Enumerates(order[1..], rest) by {
        forall j | j in rest ensures j in order[1..] {
          var i :| 0 <= i < |order| && order[i] == j;
          assert i != 0;
        }
      }
      KeysCount(rest, order[1..]);
    } else {
      assert T.Keys == {};
    }
  }

  /** The listing does not depend on the dictionary's iteration order. */
  lemma ListingOrderFree(T: Table, o1: seq<ClusterId>, o2: seq<ClusterId>)
    requires Enumerates(o1, T) && Enumerates(o2, T)
    ensures Listing(T, o1) == Listing(T, o2)
  {
    LexOrder();
    LinesDistinct(T, o1);
    LinesDistinct(T, o2);
    var l1, l2 := Lines(T, o1), Lines(T, o2);
    LinesInOrder(T, o1);
    LinesInOrder(T, o2);
    forall x ensures x in l1 <==> x in l2 {
      if x in l1 {
        var i :| 0 <= i < |o1| && l1[i] == x;
        var j :| 0 <= j < |o2| && o2[j] == o1[i];
        assert l2[j] == x;
      }
      if x in l2 {
        var j :| 0 <= j < |o2| && l2[j] == x;
        var i :| 0 <= i < |o1| && o1[i] == o2[j];
        assert l1[i] == x;
      }
    }
    DistinctSameMultiset(l1, l2);
    SortUnique(l1, l2, LexLe);
  }

  ghost predicate Distinct<T>(s: seq<T>) {
    forall i, j :: 0 <= i < j < |s| ==> s[i] != s[j]
  }

  lemma LinesDistinct(T: Table, order: seq<ClusterId>)
    requires Enumerates(order, T)
    ensures Distinct(Lines(T, order))
  {
    LinesInOrder(T, order);
    var lines := Lines(T, order);
    forall i, j | 0 <= i < j < |lines| ensures lines[i] != lines[j] {
      if lines[i] == lines[j] {
        LineInjective(order[i], T[order[i]], order[j], T[order[j]]);
      }
    }
  }

  lemma {:induction false} DistinctCount<T>(s: seq<T>, x: T)
    requires Distinct(s)
    ensures multiset(s)[x] == if x in s then 1 else 0
  {
    if s != [] {
      DistinctCount(s[1..], x);
      assert s == [s[0]] + s[1..];
    }
  }

  lemma DistinctSameMultiset<T>(a: seq<T>, b: seq<T>)
    requires Distinct(a) && Distinct(b)
    requires forall x :: x in a <==> x in b
    ensures multiset(a) == multiset(b)
  {
    forall x ensures multiset(a)[x] == multiset(b)[x] {
      DistinctCount(a, x);
      DistinctCount(b, x);
    }
  }

  /** `cluster`'s `add` and `del` branches run as a chain of independent `if`s, each
      seeing the parameters the one before has cut down: the pending table, parameters
      and reply. */
  datatype Pending = Pending(table: Table, params: string, reply: string)

  /** `if params.startswith('add')`: the first word after the command becomes an
      available cluster, reserved or not before. */
  function AddBranch(st: Pending): (st2: Pending)
    ensures StartsWith(st.params, "add") ==>
      && st2.params == Token(Drop(st.params, 4))
      && st2.table == st.table[st2.params := Available]
    ensures !StartsWith(st.params, "add") ==> st2 == st
  {
    if StartsWith(st.params, "add") then
      var id := Token(Drop(st.params, 4));
      Pending(st.table[id := Available], id, "Added " + id)
    else st
  }

  /** `if params.startswith('del')`: the first word after the command is removed, if present. */
  function DelBranch(st: Pending): (st2: Pending)
    ensures StartsWith(st.params, "del") ==>
      && st2.params == Token(Drop(st.params, 4))
      && st2.table.Keys == st.table.Keys - {st2.params}
      && forall k :: k in st2.table ==> st2.table[k] == st.table[k]
    ensures !StartsWith(st.params, "del") ==> st2 == st
  {
    if StartsWith(st.params, "del") then
      var id := Token(Drop(st.params, 4));
      Pending(st.table - {id}, id, "Deleted " + id)
    else st
  }

  /** `cluster`: list the clusters, or add, delete, take or return one. */
  function ClusterOp(T: Table, params: Option<string>, source: string, now: string,
                     order: seq<ClusterId>): (o: Outcome)
    // with no parameters it only lists
    ensures !Given(params) ==> o == Outcome(T, Ok(Listing(T, order)))
  {
    if !Given(params) then Outcome(T, Ok(Listing(T, order)))
    else
      Dispatch(DelBranch(AddBranch(Pending(T, params.value, Listing(T, order)))), source, now)
  }

  /** The end of the chain: `take` and `return` hand the rest of the parameters on. */
  function Dispatch(st: Pending, source: string, now: string): (o: Outcome)
    // the end of the chain adds or removes no cluster
    ensures o.table.Keys == st.table.Keys
    // it changes at most one entry
    ensures forall k, k' ::
      (k in st.table && k' in st.table && o.table[k] != st.table[k] && o.table[k'] != st.table[k']) ==> k == k'
    // and that one is either freed or newly reserved
    ensures forall k :: k in st.table && o.table[k] != st.table[k] ==>
      (o.table[k] == Available <==> st.table[k].Reserved?)
  {
    if StartsWith(st.params, "take") then TakeOp(st.table, Some(Drop(st.params, 5)), source, now)
    else if StartsWith(st.params, "return") then ReturnOp(st.table, Some(Drop(st.params, 7)), source)
    else Outcome(st.table, Ok(st.reply))
  }

  lemma StartsWithAppend(p: string, s: string, q: string)
    requires |q| <= |p|
    ensures StartsWith(p + s, q) <==> StartsWith(p, q)
  {
    assert (p + s)[..|q|] == p[..|q|];
  }

  lemma DropAppend(p: string, s: string)
    ensures Drop(p + s, |p|) == s
  {
    assert (p + s)[|p|..] == s;
  }

  /** `cluster add <id>` makes the cluster available, even when reserved, and touches
      nothing else, provided the id does not itself start another command. */
  lemma ClusterAdd(T: Table, id: ClusterId, source: string, now: string, order: seq<ClusterId>)
    requires ' ' !in id
    requires !StartsWith(id, "del") && !StartsWith(id, "take") && !StartsWith(id, "return")
    ensures ClusterOp(T, Some("add " + id), source, now, order) == Outcome(T[id := Available], Ok("Added " + id))
  {
    StartsWithAppend("add ", id, "add");
    DropAppend("add ", id);
    TokenOfWord(id);
  }

  /** `cluster del <id>` removes the cluster, if present, and touches nothing else. */
  lemma ClusterDel(T: Table, id: ClusterId, source: string, now: string, order: seq<ClusterId>)
    requires ' ' !in id
    requires !StartsWith(id, "take") && !StartsWith(id, "return")
    ensures ClusterOp(T, Some("del " + id), source, now, order) == Outcome(T - {id}, Ok("Deleted " + id))
  {
    StartsWithAppend("del ", id, "add");
    StartsWithAppend("del ", id, "del");
    DropAppend("del ", id);
    TokenOfWord(id);
  }

  /** Because the branches are `if`s and not `elif`s, adding a cluster whose id starts
      with `del` also deletes the cluster named by the rest of that id: `add delta` adds
      `delta`, then removes `a`, and replies `Deleted a`. */
  lemma ClusterAddDel(T: Table, id: ClusterId, source: string, now: string, order: seq<ClusterId>)
    requires ' ' !in id && StartsWith(id, "del")
    requires var rest := Token(Drop(id, 4)); !StartsWith(rest, "take") && !StartsWith(rest, "return")
    ensures var rest := Token(Drop(id, 4));
      ClusterOp(T, Some("add " + id), source, now, order) ==
        Outcome(T[id := Available] - {rest}, Ok("Deleted " + rest))
  {
    StartsWithAppend("add ", id, "add");
    DropAppend("add ", id);
    TokenOfWord(id);
  }

  /** Texts that differ in their first character do not start one another. */
  lemma FirstCharDiffers(s: string, q: string)
    requires s != "" && q != "" && s[0] != q[0]
    ensures !StartsWith(s, q)
  {
  }

  /** `cluster take <id>` is `take <id>`. */
  lemma ClusterTake(T: Table, p: string, source: string, now: string, order: seq<ClusterId>)
    ensures ClusterOp(T, Some("take " + p), source, now, order) == TakeOp(T, Some(p), source, now)
  {
    var cmd := "take " + p;
    var st := Pending(T, cmd, Listing(T, order));
    FirstCharDiffers(cmd, "add");
    assert AddBranch(st) == st;
    FirstCharDiffers(cmd, "del");
    assert DelBranch(st) == st;
    StartsWithAppend("take ", p, "take");
    DropAppend("take ", p);
    assert Dispatch(st, source, now) == TakeOp(T, Some(p), source, now);
  }

  /** `cluster return <id>` is `return <id>`. */
  lemma ClusterReturn(T: Table, p: string, source: string, now: string, order: seq<ClusterId>)
    ensures ClusterOp(T, Some("return " + p), source, now, order) == ReturnOp(T, Some(p), source)
  {
    var cmd := "return " + p;
    var st := Pending(T, cmd, Listing(T, order));
    FirstCharDiffers(cmd, "add");
    assert AddBranch(st) == st;
    FirstCharDiffers(cmd, "del");
    assert DelBranch(st) == st;
    FirstCharDiffers(cmd, "take");
    StartsWithAppend("return ", p, "return");
    DropAppend("return ", p);
    assert Dispatch(st, source, now) == ReturnOp(T, Some(p), source);
  }

  /** A word without spaces is its own first word. */
  lemma TokenOfWord(s: string)
    requires ' ' !in s
    ensures Token(s) == s
  {
    var t := Token(s);
    assert |t| == |s| by {
      assert forall i :: 0 <= i < |s| ==> s[i] != ' ';
    }
  }

  /** What `reservations` replies: a line per reserved cluster, or, when none is
      reserved, the sorted numeric ids of all clusters. */
  datatype Report = Held(lines: seq<string>) | AllOpen(ids: seq<int>)

  /** Some cluster is reserved: Python's `any(clusters.values())`. */
  predicate AnyReserved(T: Table) {
    exists k | k in T :: T[k].Reserved?
  }

  /** `'%s by %s at %s'` for each reserved cluster, in the dictionary's iteration order. */
  function HeldLines(T: Table, order: seq<ClusterId>): (lines: seq<string>)
    ensures |lines| <= |order|
  {
    if order == [] then []
    else
      var k := order[0];
      (if k in T && T[k].Reserved? then [HeldLine(k, T[k])] else [])
      + HeldLines(T, order[1..])
  }

  /** `[int(k) for k in clusters.keys()]`: `ValueError` at the first id that is not a number. */
  function ParseIds(T: Table, order: seq<ClusterId>): (r: Result<seq<int>, Fault>)
    ensures r.Ok? ==> forall k :: k in T && k in order ==> ParseInt(k).Some? && ParseInt(k).value in r.value
    ensures r.Ok? ==> forall x :: x in r.value ==> exists k :: k in T && ParseInt(k) == Some(x)
    ensures r.Err? <==> exists k :: k in T && k in order && ParseInt(k).None?
    ensures r.Err? ==> r == Err(ValueError)
  {
    if order == [] then Ok([])
    else
      var k := order[0];
      var rest := ParseIds(T, order[1..]);
      if k !in T then rest
      else match ParseInt(k)
        case None => Err(ValueError)
        case Some(n) => if rest.Err? then rest else Ok([n] + rest.value)
  }

  /** `[int(k) for k in ks]`, for keys that all parse. */
  ghost function Numbers(ks: seq<ClusterId>): seq<int>
    requires forall i :: 0 <= i < |ks| ==> ParseInt(ks[i]).Some?
  {
    if ks == [] then []
    else
      assert forall i :: 0 <= i < |ks| - 1 ==> ks[1..][i] == ks[i + 1];
      [ParseInt(ks[0]).value] + Numbers(ks[1..])
  }

  /** One number per key. */
  lemma {:induction false} NumbersLength(ks: seq<ClusterId>)
    requires forall i :: 0 <= i < |ks| ==> ParseInt(ks[i]).Some?
    ensures |Numbers(ks)| == |ks|
  {
    if ks != [] {
      var rest := ks[1..];
      assert forall i :: 0 <= i < |rest| ==> rest[i] == ks[i + 1];
      NumbersLength(rest);
    }
  }

  /** Over keys of the table, the ids parse exactly when every key does. */
  lemma {:induction false} ParseIdsAllParse(T: Table, order: seq<ClusterId>)
    requires forall k :: k in order ==> k in T
    ensures ParseIds(T, order).Ok? <==> forall i :: 0 <= i < |order| ==> ParseInt(order[i]).Some?
  {
    if order != [] {
      var rest := order[1..];
      ParseIdsAllParse(T, rest);
      assert forall i :: 1 <= i < |order| ==> order[i] == rest[i - 1];
      assert order[0] in T;
    }
  }

  /** The ids are then the keys' numbers, one per key and in order. */
  lemma {:induction false} ParseIdsNumbers(T: Table, order: seq<ClusterId>)
    requires forall k :: k in order ==> k in T
    requires forall i :: 0 <= i < |order| ==> ParseInt(order[i]).Some?
    ensures ParseIds(T, order) == Ok(Numbers(order))
  {
    if order == [] {
      assert Numbers(order) == [];
    } else {
      ParseIdsNumbers(T, order[1..]);
      assert order[0] in T;
    }
  }

  predicate IntLe(a: int, b: int) { a <= b }

  /** Python 2's `int` on a 64-bit build; `int()` gives a `long` outside this range. */
  const MIN_INT := -0x8000_0000_0000_0000
  const MAX_INT := 0x7FFF_FFFF_FFFF_FFFF

  /** `repr` of a number that `int()` produced: a `long` carries a trailing `L`. */
  function NumberRepr(n: int): (s: string)
    ensures s == IntToString(n) || s == IntToString(n) + "L"
    ensures s[|s| - 1] == 'L' <==> n < MIN_INT || MAX_INT < n
  {
    var digits := IntToString(n);
    assert digits[|digits| - 1] != 'L' by {
      if n >= 0 {
        assert IsDigit(digits[|digits| - 1]);
      } else {
        assert digits[1..] == NatToString(-n);
        assert IsDigit(digits[1..][|digits| - 2]);
      }
    }
    if MIN_INT <= n <= MAX_INT then digits else digits + "L"
  }

  /** The text of a Python list of integers, `[1, 2, 3]`; the list prints its elements'
      `repr`. */
  function IntList(ids: seq<int>): string {
    "[" + Join(seq(|ids|, i requires 0 <= i < |ids| => NumberRepr(ids[i])), ", ") + "]"
  }

  /** The lines `reservations` replies with. */
  function RenderReport(r: Report): seq<string> {
    match r
    case Held(lines) => lines
    case AllOpen(ids) => ["All clusters are open: " + IntList(ids)]
  }

  /** `reservations`. The numeric ids are only computed when no cluster is reserved. */
  function ReservationsOp(T: Table, order: seq<ClusterId>): (r: Result<Report, Fault>)
    // "All clusters are open" exactly when no reservation is non-empty (and the ids parse)
    ensures r.Ok? && r.value.AllOpen? ==> !AnyReserved(T)
    ensures !AnyReserved(T) && r.Ok? ==> r.value.AllOpen?
    // the only failure is an id that is not a number, once every cluster is open
    ensures r.Err? ==> !AnyReserved(T) && r == Err(ValueError)
    // the ids are in ascending order
    ensures r.Ok? && r.value.AllOpen? ==> SortedBy(r.value.ids, IntLe)
  {
    if AnyReserved(T) then Ok(Held(HeldLines(T, order)))
    else match ParseIds(T, order)
      case Err(f) => Err(f)
      case Ok(ids) =>
        SortSorted(ids, IntLe);
        Ok(AllOpen(Sort(ids, IntLe)))
  }

  /** The clusters that hold a reservation. */
  ghost function ReservedIds(T: Table): set<ClusterId> {
    set k | k in T && T[k].Reserved?
  }

  /** The line `reservations` gives for a reserved cluster. */
  function HeldLine(k: ClusterId, r: Reservation): string
    requires r.Reserved?
  {
    k + " by " + r.name + " at " + r.time
  }

  /** Over a full enumeration of the table: while some cluster is reserved there is one
      line for each reserved cluster and no other; once none is, the report fails with
      `ValueError` exactly when some id is not a number, and otherwise lists each
      cluster's number. */
  lemma ReservationsReport(T: Table, order: seq<ClusterId>)
    requires Enumerates(order, T)
    ensures var r := ReservationsOp(T, order);
      && (AnyReserved(T) ==> (
            && r.Ok? && r.value.Held?
            && |r.value.lines| == |ReservedIds(T)|
            && (forall k :: k in ReservedIds(T) ==> HeldLine(k, T[k]) in r.value.lines)
            && (forall x :: x in r.value.lines ==> exists k :: k in ReservedIds(T) && x == HeldLine(k, T[k]))))
      && (!AnyReserved(T) ==> (
            && (r.Err? <==> exists k :: k in T && ParseInt(k).None?)
            && (r.Ok? ==> forall k :: k in T ==> ParseInt(k).value in r.value.ids)))
  {
    if AnyReserved(T) {
      HeldLinesCount(T, order);
      HeldLinesMembers(T, order);
    } else {
      var p := ParseIds(T, order);
      if p.Ok? {
        IntLePreorder();
        assert multiset(Sort(p.value, IntLe)) == multiset(p.value);
        forall k | k in T ensures ParseInt(k).value in Sort(p.value, IntLe) {
          assert ParseInt(k).value in multiset(p.value);
        }
      }
    }
  }

  /** When every cluster is open, the report lists the clusters' numbers, one per
      enumerated cluster. */
  lemma ReservationsIds(T: Table, order: seq<ClusterId>)
    requires Enumerates(order, T)
    ensures var r := ReservationsOp(T, order);
      r.Ok? && r.value.AllOpen? ==> (
        && (forall i :: 0 <= i < |order| ==> ParseInt(order[i]).Some?)
        && |r.value.ids| == |order|
        && multiset(r.value.ids) == multiset(Numbers(order)))
  {
    if !AnyReserved(T) {
      var p := ParseIds(T, order);
      ParseIdsAllParse(T, order);
      if p.Ok? {
        ParseIdsNumbers(T, order);
        NumbersLength(order);
        IntLePreorder();
        assert multiset(Sort(p.value, IntLe)) == multiset(p.value);
      }
    }
  }

  /** The all-open report lists nothing but the clusters' numbers. */
  lemma ReservationsOnlyIds(T: Table, order: seq<ClusterId>)
    ensures var r := ReservationsOp(T, order);
      r.Ok? && r.value.AllOpen? ==> forall x :: x in r.value.ids ==> exists k :: k in T && ParseInt(k) == Some(x)
  {
    var p := ParseIds(T, order);
    if !AnyReserved(T) && p.Ok? {
      IntLePreorder();
      var ids := Sort(p.value, IntLe);
      assert multiset(ids) == multiset(p.value);
      forall x | x in ids ensures exists k :: k in T && ParseInt(k) == Some(x) {
        assert x in multiset(p.value);
        assert x in p.value;
      }
    }
  }

  lemma IntLePreorder()
    ensures Preorder(IntLe)
  {
  }

  lemma {:induction false} HeldLinesMembers(T: Table, order: seq<ClusterId>)
    ensures forall k :: k in ReservedIds(T) && k in order ==> HeldLine(k, T[k]) in HeldLines(T, order)
    ensures forall x :: x in HeldLines(T, order) ==> exists k :: k in ReservedIds(T) && x == HeldLine(k, T[k])
  {
    if order != [] {
      HeldLinesMembers(T, order[1..]);
      assert forall k :: k in order ==> k == order[0] || k in order[1..];
    }
  }

  /** Removing the first cluster of a full enumeration leaves a full enumeration of the rest. */
  lemma EnumeratesTail(T: Table, order: seq<ClusterId>)
    requires Enumerates(order, T) && order != []
    ensures Enumerates(order[1..], T - {order[0]})
  {
    forall j | j in T - {order[0]} ensures j in order[1..] {
      var i :| 0 <= i < |order| && order[i] == j;
      assert i != 0;
    }
  }

  lemma {:induction false} HeldLinesCount(T: Table, order: seq<ClusterId>)
    requires Enumerates(order, T)
    ensures |HeldLines(T, order)| == |ReservedIds(T)|
    decreases |order|
  {
    if order == [] {
      assert ReservedIds(T) == {};
    } else {
      var k := order[0];
      var rest := T - {k};
      EnumeratesTail(T, order);
      HeldLinesCount(rest, order[1..]);
      assert k !in order[1..];
      HeldLinesFrame(T, rest, order[1..]);
      ReservedIdsStep(T, k);
    }
  }

  lemma ReservedIdsStep(T: Table, k: ClusterId)
    requires k in T
    ensures |ReservedIds(T)| == |ReservedIds(T - {k})| + (if T[k].Reserved? then 1 else 0)
  {
    var rest := T - {k};
    if T[k].Reserved? {
      assert ReservedIds(T) == ReservedIds(rest) + {k};
    } else {
      assert ReservedIds(T) == ReservedIds(rest);
    }
  }

  /** The lines depend only on the entries the order visits. */
  lemma {:induction false} HeldLinesFrame(T: Table, U: Table, order: seq<ClusterId>)
    requires forall k :: k in order ==> (k in T <==> k in U) && (k in T ==> T[k] == U[k])
    ensures HeldLines(T, order) == HeldLines(U, order)
  {
    if order != [] {
      HeldLinesFrame(T, U, order[1..]);
    }
  }

  // ---------------------------------------------------------------------------
  // The plugin

  /** The plugin's persisted state and the scrum log it holds in memory. */
  class Comedian {
    /** The `clusters` file; a missing or empty file reads as `{}`. */
    var clusters: Table
    /** The scrum files, one per day; a day without a file is absent. */
    var scrums: map<int, string>
    /** `self.scrum_data`: the lines of the log loaded last. */
    var scrumData: seq<string>
    /** `self.date`: the date loaded last; `None` before any load. */
    var date: Option<When>

    constructor (clusterFile: Table, scrumFiles: map<int, string>)
      ensures clusters == clusterFile && scrums == scrumFiles && scrumData == [] && date.None?
    {
      clusters := clusterFile;
      scrums := scrumFiles;
      scrumData := [];
      date := None;
    }

    /** `load_scrum`: resolve the date, then read that day's file. A `'last week'` date is
        kept and then fails to format (`AttributeError`). */
    method LoadScrum(arg: Option<string>, today: int) returns (fault: Option<Fault>)
      modifies this`date, this`scrumData
      ensures match GetDate(arg, today)
        case Err(f) => fault == Some(f) && date == old(date) && scrumData == old(scrumData)
        case Ok(Phrase(_)) => fault == Some(AttributeError) && date == Some(GetDate(arg, today).value) && scrumData == old(scrumData)
        case Ok(Day(d)) => (fault.None? && date == Some(Day(d)) &&
          scrumData == LogLines(if d in scrums then Some(scrums[d]) else None))
    {
      var when := GetDate(arg, today);
      if when.Err? {
        return Some(when.error);
      }
      date := Some(when.value);
      if when.value.Phrase? {
        return Some(AttributeError);
      }
      var d := when.value.day;
      var file := if d in scrums then Some(scrums[d]) else None;
      scrumData := LogLines(file);
      fault := None;
    }

    /** `write_scrum`: the day given, else the date loaded last (today before any load). */
    method WriteScrum(arg: Option<string>, today: int) returns (fault: Option<Fault>)
      modifies this`scrums
      ensures var target :=
          if Given(arg) then GetDate(arg, today)
          else if date.None? then Ok(Day(today)) else Ok(date.value);
        match target
        case Err(f) => fault == Some(f) && scrums == old(scrums)
        case Ok(Phrase(_)) => fault == Some(AttributeError) && scrums == old(scrums)
        case Ok(Day(d)) => fault.None? && scrums == old(scrums)[d := LogFile(scrumData)]
    {
      var target: Result<When, Fault>;
      if Given(arg) {
        target := GetDate(arg, today);
      } else if date.None? {
        target := Ok(Day(today));
      } else {
        target := Ok(date.value);
      }
      if target.Err? {
        return Some(target.error);
      }
      if target.value.Phrase? {
        return Some(AttributeError);
      }
      scrums := scrums[target.value.day := LogFile(scrumData)];
      fault := None;
    }

    /** `standup`: load today's log; with something to say, append one entry stamped with
        the wall-clock `clock` ("HH:MM") and the caller's identity, and write it back. */
    method Standup(params: Option<string>, source: string, clock: string, today: int)
      returns (r: Result<string, Fault>)
      modifies this`date, this`scrumData, this`scrums
      ensures date == Some(Day(today))
      ensures var old_file := if today in old(scrums) then Some(old(scrums)[today]) else None;
        if !Given(params) then
          r == Ok(STANDUP_DOC) && scrums == old(scrums) && scrumData == LogLines(old_file)
        else if UserOf(source).Err? then
          r == Err(ValueError) && scrums == old(scrums) && scrumData == LogLines(old_file)
        else
          var entry := Entry(clock, UserOf(source).value, params.value);
          && r == Ok("Got it.")
          && scrumData == LogLines(old_file) + [entry]
          && scrums == old(scrums)[today := LogFile(LogLines(old_file) + [entry])]
    {
      var fault := LoadScrum(None, today);
      if !Given(params) {
        return Ok(STANDUP_DOC);
      }
      var user := UserOf(source);
      if user.Err? {
        return Err(user.error);
      }
      var entry := Entry(clock, user.value, params.value);
      scrumData := scrumData + [entry];
      fault := WriteScrum(None, today);
      r := Ok("Got it.");
    }

    /** `scrum`: the log of the day named, or that there is none; a request for tomorrow
        is refused, other failures escape. */
    method Scrum(params: Option<string>, today: int) returns (r: Result<ScrumReply, Fault>)
      modifies this`date, this`scrumData
      ensures match GetDate(params, today)
        case Err(TimeTravelException) => r == Ok(NoTimeTravel)
        case Err(f) => r == Err(f)
        case Ok(Phrase(_)) => r == Err(AttributeError)
        case Ok(Day(d)) =>
          var lines := LogLines(if d in scrums then Some(scrums[d]) else None);
          r == if lines != [] then Ok(Log(Join(lines, "\n"))) else Ok(NothingFor(d))
      // and leaves the date and the log as `load_scrum` does
      ensures match GetDate(params, today)
        case Err(_) => date == old(date) && scrumData == old(scrumData)
        case Ok(Phrase(t)) => date == Some(Phrase(t)) && scrumData == old(scrumData)
        case Ok(Day(d)) => date == Some(Day(d)) && scrumData == LogLines(if d in scrums then Some(scrums[d]) else None)
    {
      var fault := LoadScrum(params, today);
      if fault == Some(TimeTravelException) {
        return Ok(NoTimeTravel);
      } else if fault.Some? {
        return Err(fault.value);
      }
      if scrumData != [] {
        r := Ok(Log(Join(scrumData, "\n")));
      } else {
        r := Ok(NothingFor(date.value.day));
      }
    }

    /** `take`: load the table, update the named entry in place, write it back. */
    method Take(params: Option<string>, source: string, now: string) returns (r: Result<string, Fault>)
      modifies this`clusters
      ensures var o := TakeOp(old(clusters), params, source, now);
        clusters == o.table && r == o.reply
    {
      var table := clusters;
      r := Ok(TAKE_DOC);
      if Given(params) {
        var id := Token(params.value);
        if id !in table {
          r := Ok(id + " does not exist.");
        } else if table[id].Reserved? {
          r := Ok(id + " is reserved by " + table[id].name + " since " + table[id].time);
        } else {
          var user := UserOf(source);
          if user.Err? {
            return Err(user.error);
          }
          table := table[id := Reserved(user.value, now)];
          clusters := table;
          r := Ok("Reserved " + id);
        }
      }
    }

    /** `ret` (the `return` and `release` commands). */
    method Return(params: Option<string>, source: string) returns (r: Result<string, Fault>)
      modifies this`clusters
      ensures var o := ReturnOp(old(clusters), params, source);
        clusters == o.table && r == o.reply
    {
      var table := clusters;
      r := Ok(RETURN_DOC);
      if Given(params) {
        var force := Contains(params.value, "force");
        var id := Token(params.value);
        if id !in table {
          r := Ok(id + " does not exist.");
        } else {
          var user := UserOf(source);
          if user.Err? {
            return Err(user.error);
          }
          if table[id].Available? {
            return Err(KeyError);
          }
          if user.value == table[id].name || force {
            table := table[id := Available];
            clusters := table;
            r := Ok((if force then "Forced to give up " else "Gave up ") + id + ".");
          } else {
            r := Ok("You cannot make me do that.");
          }
        }
      }
    }

    /** `cluster` (and its alias `c`): the `if` chain, each test seeing the parameters as
        the test before left them; `take` and `return` reload the table just written. */
    method Cluster(params: Option<string>, source: string, now: string, order: seq<ClusterId>)
      returns (r: Result<string, Fault>)
      modifies this`clusters
      ensures var o := ClusterOp(old(clusters), params, source, now, order);
        clusters == o.table && r == o.reply
    {
      var table := clusters;
      var res := Listing(table, order);
      if Given(params) {
        var p := params.value;
        ghost var st := Pending(table, p, res);
        if StartsWith(p, "add") {
          p := Drop(p, 4);
          p := Token(p);
          table := table[p := Available];
          clusters := table;
          res := "Added " + p;
        }
        assert Pending(table, p, res) == AddBranch(st);
        if StartsWith(p, "del") {
          p := Drop(p, 4);
          p := Token(p);
          table := table - {p};
          clusters := table;
          res := "Deleted " + p;
        }
        assert Pending(table, p, res) == DelBranch(AddBranch(st));
        if StartsWith(p, "take") {
          p := Drop(p, 5);
          r := Take(Some(p), source, now);
          return;
        }
        if StartsWith(p, "return") {
          p := Drop(p, 7);
          r := Return(Some(p), source);
          return;
        }
      }
      r := Ok(res);
    }

    /** `reservations`: a reply per reserved cluster, in the dictionary's order; then, if
        none was reserved, the sorted numeric ids. */
    method Reservations(order: seq<ClusterId>) returns (r: Result<Report, Fault>)
      ensures r == ReservationsOp(clusters, order)
    {
      var table := clusters;
      var lines: seq<string> := [];
      var i := 0;
      while i < |order|
        invariant 0 <= i <= |order|
        invariant lines + HeldLines(table, order[i..]) == HeldLines(table, order)
      {
        var k := order[i];
        assert order[i..] == [k] + order[i + 1..];
        if k in table && table[k].Reserved? {
          lines := lines + [HeldLine(k, table[k])];
        }
        i := i + 1;
      }
      assert lines == HeldLines(table, order) by {
        assert order[i..] == [];
      }
      if AnyReserved(table) {
        return Ok(Held(lines));
      }
      var ids := ParseIds(table, order);
      if ids.Err? {
        return Err(ids.error);
      }
      r := Ok(AllOpen(Sort(ids.value, IntLe)));
    }
  }
}
