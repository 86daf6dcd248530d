# pyhole plugin state machines, modelled in Dafny

This project models the rule logic of three plugins of the pyhole IRC bot and proves what
those rules promise. The IRC, file and network plumbing around the rules is left out.

- **TopHat teatime election** (`teatime.dfy`, module `Teatime`).
  - The election document: started flag, timer expiry, and a ledger from location to
    voters in voting order.
  - `__suggest`: moving a caller's single vote.
  - `__sorted_votes`: the tally.
  - The `teatime` command: status, `start [minutes]`, `stop`, `suggest <loc>`, `help` and
    a plain location vote.
  - One wake-up of the `__election` elector: bail, wait, or announce and reset.
  - The class `TopHat` holds the in-memory election, the `running` flag and the persisted
    document, and its methods update them in place.
- **Comedian standup and cluster reservations** (`standup.dfy`, module `Standup`).
  - The caller identity (`nick!mask` → the mask's word characters) and `get_date`.
  - The scrum log: lines split and joined on newlines, with `standup` appending one entry.
  - The cluster reservation table and its commands: `take`, `return`/`release`, the
    `cluster`/`c` if-chain (add, del, take, return, listing) and `reservations`.
  - The class `Comedian` holds the `clusters` file, the per-day scrum files, `scrum_data`
    and `date`.
- **Jenkins failure poll** (`jenkins.dfy`, module `Jenkins`).
  - `parse_params` (the last named entry wins).
  - The `new_failures` dictionary built from the feed.
  - The announcement of failures the cache lacks, and the cache replacement. The class
    `Poller` holds the `rss_cache` file.

Shared modules:
- `wrappers.dfy` holds `Option` and `Result`.
- `text.dfy` models the Python string operations the plugins use: `in`, `split`, `join`,
  `split(' ')[0]`, `strip`, `int()`, `re.sub("\W+", '', s)`, and string ordering.
- `sorting.dfy` models Python's stable `sorted` as an insertion sort, with its ordering,
  permutation, head and uniqueness lemmas.

How the model represents things:
- A dictionary's iteration order is an explicit `order` parameter (a sequence of its keys).
  Lemmas that need it require that `order` enumerates the keys exactly once.
- Python exceptions that escape a command are `Err` values.
- Persisted files are fields of the plugin classes.
- Dates are integer day numbers. The clock (`time.time()`, `time.strftime`) is a parameter.

The model follows the code as written:
- A `start` minute count is not clamped; zero or negative counts pass through.
- Votes are accepted before `start`.
- Tally ties fall to dictionary order.
- There is no "no votes" announcement.
- `stop` leaves the in-memory election as loaded, and the command's final write persists it.
- `int()` is Python 2's: whitespace may surround the number and stand between the sign and
  the digits, so `start - 5` asks for -5 minutes and `scrum - 3` names the day three days
  ahead.
- `cluster add delta` also deletes `a`, because the branches are `if`s and not `elif`s.

## Model

| member | source | states |
|---|---|---|
| Teatime.RemoveFirst | pyhole/plugins/tophat.py:71 | `list.remove(s)` takes exactly one `s` out of the multiset of voters, and leaves a list without `s` unchanged |
| Teatime.RemoveFirstAt | pyhole/plugins/tophat.py:71 | `list.remove(s)` takes out the first occurrence of `s` and keeps the other voters in order |
| Teatime.RemoveFirstEmpties | pyhole/plugins/tophat.py:71-73 | removing `s` empties a list holding `s` exactly when the list was `[s]` |
| Teatime.Withdrawn | pyhole/plugins/tophat.py:69-73 | the ledger part-way through the loop over `locations.keys()` has no location the ledger lacked |
| Teatime.WithdrawStep | pyhole/plugins/tophat.py:69-73 | one turn of the loop over `locations.keys()` removes `s` from that list and pops it if it became empty, and touches no other list |
| Teatime.WithdrawValid | pyhole/plugins/tophat.py:69-73 | after the loop, `s` is in no list, no list is empty, nobody votes twice, and nobody new appears |
| Teatime.AppendVoter | pyhole/plugins/tophat.py:75-76 | appending a voter who votes nowhere to `locations.get(location, [])` keeps every list non-empty and duplicate-free and the lists disjoint |
| Teatime.Vote | pyhole/plugins/tophat.py:67-77 | after `__suggest`, the locations are those the withdrawal loop leaves plus `location`, whose list ends with the caller |
| Teatime.VoteRecords | pyhole/plugins/tophat.py:67-77 | after a vote by S for L, S is the last voter of L, in no other list, the ledger has no duplicate voter and no empty list |
| Teatime.VoteKeepsOthers | pyhole/plugins/tophat.py:69-76 | a vote changes other lists only by removing S (keeping order), deletes a list that held S alone, and makes L's list its old voters minus S, plus S |
| Teatime.VoteVoters | pyhole/plugins/tophat.py:67-77 | the set of voters after a vote is the set before plus S |
| Teatime.VoteAgain | pyhole/plugins/tophat.py:67-77 | voting twice for the same location is the same as voting once |
| Teatime.VoteSettled | pyhole/plugins/tophat.py:67-77 | a vote by a source that already ends L's list and votes nowhere else leaves the ledger unchanged |
| Teatime.Items | pyhole/plugins/tophat.py:61 | every item of `locations.items()` is a key of the ledger paired with its list |
| Teatime.ItemsInOrder | pyhole/plugins/tophat.py:61 | over a full enumeration, the items are one `(key, voters)` pair per key, in iteration order |
| Teatime.MoreVotesPreorder | pyhole/plugins/tophat.py:61 | ordering by `len(voters)`, largest first, is total and transitive |
| Teatime.SortedVotes | pyhole/plugins/tophat.py:60-62 | `__sorted_votes` lists the entries in non-increasing order of voter count |
| Teatime.TallyOrdered | pyhole/plugins/tophat.py:60-62 | `__sorted_votes` is a permutation of the ledger's entries in non-increasing order of voter count |
| Teatime.TallyMembers | pyhole/plugins/tophat.py:61 | every ledger entry is in the tally and every tally entry is a ledger entry |
| Teatime.TallySize | pyhole/plugins/tophat.py:61 | the tally has one entry per location |
| Teatime.TallyLeader | pyhole/plugins/tophat.py:61 | the head of the tally is the location with the most voters that comes first in dictionary order |
| Teatime.LeaderOfTally | pyhole/plugins/tophat.py:112-115 | the head of a non-empty tally is a ledger entry with the most voters |
| Teatime.StatusReply | pyhole/plugins/tophat.py:110-120 | with no params: "haven't asked" when not started; otherwise the leading location when votes exist and "alone" exactly when the ledger is empty; a started document with no ledger raises `KeyError` |
| Teatime.StartMinutes | pyhole/plugins/tophat.py:125 | an empty `params[5:]` asks for 10 minutes |
| Teatime.StartMinutesParsed | pyhole/plugins/tophat.py:124-127 | when `params[5:]` has the shape of the number n (`Text.IntText`), the timer is n, with no clamping; when it has no such shape, so that `int()` raises `ValueError`, the timer is 10 |
| Teatime.StartMinutesOf | pyhole/plugins/tophat.py:125-127 | `start N` gives N minutes for every integer N, negative ones included, and a bare `start` gives 10 |
| Teatime.StartMinutesSigned | pyhole/plugins/tophat.py:125 | `int()` skips the space left after slicing off `start` and any whitespace between the sign and the digits: `start - 5` asks for -5 minutes |
| Teatime.KindOf | pyhole/plugins/tophat.py:110-159 | branch selection by substring with priority start > stop > suggest > help > plain location; no params is the status query |
| Teatime.LoadTeatime | pyhole/plugins/tophat.py:48-55 | a missing or unparsable document loads as `{'started': False, 'locations': {}}` |
| Teatime.Resolve | pyhole/plugins/tophat.py:175-188 | the elector bails without an expiry (or with expiry 0), fires only when `now > expiry` (strictly), and over a full enumeration announces when the ledger is non-empty, naming a location with the most voters and its voter count |
| Teatime.StatusEffect | pyhole/plugins/tophat.py:110-120 | the status query keeps the election and `running`, and replies with `StatusReply` or raises its error |
| Teatime.StartEffect | pyhole/plugins/tophat.py:122-138 | an idle election becomes started, expiring at now plus 60 times the minutes, with an empty ledger and the welcome line; a started one is kept, with the hobbit line |
| Teatime.StopEffect | pyhole/plugins/tophat.py:139-144 | `stop` keeps the election as loaded, clears `running`, and replies with the apology and an empty line |
| Teatime.SuggestEffect | pyhole/plugins/tophat.py:145-151 | `suggest` raises `ValueError` unless the text splits in two around the word, and is otherwise a vote for the stripped tail |
| Teatime.CommandEffect | pyhole/plugins/tophat.py:110-159 | the branch `KindOf` picks decides the effect; `help` keeps everything and does not spawn the elector; other text is a vote for itself |
| Teatime.TopHat.constructor | pyhole/plugins/tophat.py:45-46 | the plugin starts with an empty election and no elector running |
| Teatime.TopHat.Load | pyhole/plugins/tophat.py:48-55 | loads the stored election, or stores and uses the fallback |
| Teatime.TopHat.Suggest | pyhole/plugins/tophat.py:67-77 | the in-place loop and append leave exactly the ledger `Vote` describes |
| Teatime.TopHat.VoteCommand | pyhole/plugins/tophat.py:155-159 | a plain location is voted for verbatim with the "excellent choice" reply, or raises `KeyError` without a ledger |
| Teatime.TopHat.StatusCommand | pyhole/plugins/tophat.py:110-120 | the status query changes nothing and replies with `StatusReply` |
| Teatime.TopHat.StartCommand | pyhole/plugins/tophat.py:122-138 | when not started, the election becomes started with expiry `now + 60*m` and no votes; when started, nothing changes and the reply is the hobbit line |
| Teatime.TopHat.StopCommand | pyhole/plugins/tophat.py:139-144 | stop apologises, clears `running`, leaves a stored document that does not decode (a dict handed to `write_file`), and leaves the in-memory election as loaded |
| Teatime.TopHat.SuggestCommand | pyhole/plugins/tophat.py:145-151 | `suggest` votes for the text after the word, stripped of spaces, and raises `ValueError` unless the word occurs exactly once |
| Teatime.TopHat.Teatime | pyhole/plugins/tophat.py:99-166 | the whole command: load, the branch `KindOf` selects, then the final write of the in-memory election (so `stop`'s write is overwritten); `help` alone suppresses the elector, which is spawned only when none is running |
| Teatime.TopHat.ElectorPoll | pyhole/plugins/tophat.py:174-192 | one wake-up of the elector: bail or fire clear `running` and leave a stored document that does not decode; waiting keeps `running` set; the election in memory is not changed |
| Standup.UserOf | pyhole/plugins/standup.py:129-131 | the identity holds only `[A-Za-z0-9_]`, and unpacking a source without exactly one `!` raises `ValueError` |
| Standup.UserOfSource | pyhole/plugins/standup.py:129-131 | the identity of `nick!mask` is the mask's word characters |
| Standup.UserOfOneBang | pyhole/plugins/standup.py:129 | the identity is derived exactly when the source holds one `!` |
| Standup.UserOfIdempotent | pyhole/plugins/standup.py:131 | deriving the identity again from an identity gives it back |
| Standup.GetDate | pyhole/plugins/standup.py:38-50 | None or empty → today, `yesterday` → today − 1, `last week` → the text itself, `tomorrow` (and only it) → `TimeTravelException`; anything else is `ValueError` or a day, as Standup.GetDateInt and Standup.GetDateRejects settle |
| Standup.GetDateDaysAgo | pyhole/plugins/standup.py:49 | the text of any integer n gives the day today − n |
| Standup.GetDateNumber | pyhole/plugins/standup.py:41-49 | a text starting with a sign or a digit that `int()` reads as n gives the day today − n |
| Standup.GetDateOther | pyhole/plugins/standup.py:41-49 | a text starting with a sign or a digit is none of the words `get_date` knows, so its day rests on `int()`: today − n, or `ValueError` |
| Standup.GetDateSpacedSign | pyhole/plugins/standup.py:49 | a minus sign, any whitespace and the digits of d give the day d days ahead, since `int()` skips whitespace after the sign: `- 3` is three days ahead |
| Standup.GetDateInt | pyhole/plugins/standup.py:38-49 | any text of the shape of the number n, leading whitespace included (` 5`), gives the day today − n |
| Standup.GetDateRejects | pyhole/plugins/standup.py:38-49 | a non-empty text that is none of the three words and has no number's shape raises `ValueError` |
| Standup.GetDateParsed | pyhole/plugins/standup.py:38-49 | a non-empty text that is none of the three words and that `int()` reads as n gives the day today − n |
| Standup.GetDateText | pyhole/plugins/standup.py:41-49 | a text starting with a sign or a digit that has the shape of the number n gives the day today − n |
| Standup.LogLines | pyhole/plugins/standup.py:80 | loaded lines contain no newline, and a non-empty file gives one more line than it has newlines |
| Standup.LogFile | pyhole/plugins/standup.py:90 | a non-empty file joined from newline-free lines loads back as those lines |
| Standup.LogRoundTrip | pyhole/plugins/standup.py:80-90 | writing back the loaded lines reproduces the file |
| Standup.LogAppend | pyhole/plugins/standup.py:132-136 | appending an entry writes old file + newline + entry (or the entry alone), and reloading gives the old lines followed by the entry |
| Standup.Entry | pyhole/plugins/standup.py:132-133 | the entry starts with `[` and is one line when its parts are |
| Standup.TakeOp | pyhole/plugins/standup.py:154-185 | `take` adds and removes no cluster and never overrides a reservation; no params gives the docstring; an unknown id gives "does not exist."; a reserved one gives "is reserved by name since time"; a free one becomes reserved by the caller at `now` with "Reserved id", or `ValueError` leaves the table when the source does not unpack |
| Standup.ReturnOp | pyhole/plugins/standup.py:188-214 | `return` adds and removes no cluster, and changes at most the first-word id from reserved to available, when the caller holds it or `force` occurs anywhere in the text; no params gives the empty docstring, an unknown id "does not exist.", and a source that does not unpack `ValueError` with the table unchanged |
| Standup.ReturnRule | pyhole/plugins/standup.py:206-213 | a reserved cluster is freed, with "Forced to give up id." or "Gave up id.", if and only if its holder or `force` asks; otherwise the table is unchanged and the reply is "You cannot make me do that." |
| Standup.ReturnAvailable | pyhole/plugins/standup.py:206 | returning an available cluster raises `KeyError` even with `force` |
| Standup.TakeThenReturn | pyhole/plugins/standup.py:164-213 | taking a free cluster reserves it for the caller at `now` with "Reserved id", and returning it with the same words restores the table |
| Standup.LineInjective | pyhole/plugins/standup.py:231-232 | different clusters give different listing lines |
| Standup.Lines | pyhole/plugins/standup.py:232-233 | at most one line per enumerated id, and exactly one each when every enumerated id is a cluster |
| Standup.LinesInOrder | pyhole/plugins/standup.py:232-233 | over a full enumeration, the listing has one line per cluster, in iteration order |
| Standup.LexOrder | pyhole/plugins/standup.py:232 | string order is total, transitive and antisymmetric |
| Standup.Listing | pyhole/plugins/standup.py:231-233 | the `cluster` listing: the lines sorted and joined by newlines (its properties are the two lemmas below) |
| Standup.ListingSorted | pyhole/plugins/standup.py:231-233 | the listing is sorted, with one `id: available`/`id: reserved` line per cluster and no other lines |
| Standup.ListingOrderFree | pyhole/plugins/standup.py:232-233 | the listing does not depend on dictionary order |
| Standup.AddBranch | pyhole/plugins/standup.py:235-242 | `add` makes the first word after the command an available cluster, even if it was reserved, and passes that word on as `params` |
| Standup.DelBranch | pyhole/plugins/standup.py:243-251 | `del` removes the first word after the command, without error if it is absent, keeps every other entry, and passes that word on |
| Standup.ClusterOp | pyhole/plugins/standup.py:227-258 | with no params, `cluster` only lists |
| Standup.Dispatch | pyhole/plugins/standup.py:252-257 | the `take`/`return` end of the `cluster` chain adds or removes no cluster and changes at most one entry, which it either frees or newly reserves; which command runs is stated by Standup.ClusterTake and Standup.ClusterReturn |
| Standup.ClusterAdd | pyhole/plugins/standup.py:235-242 | `cluster add <id>` makes `id` available and changes nothing else |
| Standup.ClusterDel | pyhole/plugins/standup.py:243-251 | `cluster del <id>` removes `id` and changes nothing else |
| Standup.ClusterAddDel | pyhole/plugins/standup.py:235-251 | because of the `if` chain, `cluster add del…` adds the id and then deletes the cluster named by its tail |
| Standup.ClusterTake | pyhole/plugins/standup.py:252-254 | `cluster take <p>` is `take <p>` |
| Standup.ClusterReturn | pyhole/plugins/standup.py:255-257 | `cluster return <p>` is `return <p>` |
| Standup.HeldLines | pyhole/plugins/standup.py:144-148 | at most one line per visited cluster |
| Standup.ParseIds | pyhole/plugins/standup.py:150 | `[int(k) for k in keys]` raises `ValueError` exactly when some id is not a number; otherwise it holds each id's number and nothing else |
| Standup.ReservationsOp | pyhole/plugins/standup.py:141-150 | "All clusters are open" exactly when no cluster is reserved (and its ids parse), with the ids in ascending order |
| Standup.ParseIdsAllParse | pyhole/plugins/standup.py:150 | over the table's keys, `[int(k) for k in clusters.keys()]` succeeds exactly when every key parses |
| Standup.ParseIdsNumbers | pyhole/plugins/standup.py:150 | it then gives each key's number, in the keys' order |
| Standup.NumbersLength | pyhole/plugins/standup.py:150 | one number per key |
| Standup.ReservationsIds | pyhole/plugins/standup.py:149-150 | over a full enumeration, the all-open list holds one number per cluster: as a multiset, exactly the clusters' numbers |
| Standup.ReservationsOnlyIds | pyhole/plugins/standup.py:150 | every number in the all-open list is some cluster's number |
| Standup.NumberRepr | pyhole/plugins/standup.py:150 | the list of open ids prints each id's decimal text, with a trailing `L` exactly when `int()` made it a `long`, outside the 64-bit `int` range |
| Standup.ReservationsReport | pyhole/plugins/standup.py:141-150 | with a reservation, one `id by name at time` line per reserved cluster and no other line; without one, `ValueError` exactly when an id is not a number, else every id's number |
| Standup.HeldLinesMembers | pyhole/plugins/standup.py:144-148 | each reserved cluster visited has its line, and each line belongs to a reserved cluster |
| Standup.HeldLinesCount | pyhole/plugins/standup.py:144-148 | there are as many lines as reserved clusters |
| Standup.Comedian.constructor | pyhole/plugins/standup.py:53-57 | the plugin starts with its files and no loaded date |
| Standup.Comedian.LoadScrum | pyhole/plugins/standup.py:74-80 | sets `date` from `get_date` and loads that day's lines; a `last week` date is kept and raises `AttributeError`; a failing `get_date` changes nothing |
| Standup.Comedian.WriteScrum | pyhole/plugins/standup.py:82-91 | writes the joined lines to the given day, else to the loaded date, else today |
| Standup.Comedian.Standup | pyhole/plugins/standup.py:119-137 | loads today's log; with params, appends exactly one `[HH:MM] <user> params` entry at the end and writes today's file |
| Standup.Comedian.Scrum | pyhole/plugins/standup.py:94-116 | replies with the day's joined log, or that there is nothing, or the time-travel refusal for `tomorrow`; other errors escape; `date` and `scrum_data` end as `load_scrum` leaves them: unchanged when `get_date` fails, the phrase for `last week`, else the day and its lines |
| Standup.Comedian.Take | pyhole/plugins/standup.py:154-185 | the in-place update of the loaded table is `TakeOp` |
| Standup.Comedian.Return | pyhole/plugins/standup.py:188-214 | the in-place update of the loaded table is `ReturnOp` (also the `release` alias, lines 265-268) |
| Standup.Comedian.Cluster | pyhole/plugins/standup.py:217-263 | the `if` chain reassigning `params` and writing the table is `ClusterOp` (also the `c` alias) |
| Standup.Comedian.Reservations | pyhole/plugins/standup.py:141-150 | the loop over the table's items gives `ReservationsOp` |
| Jenkins.ParsePrefix | pyhole/plugins/jenkins.py:96-100 | the loop of `parse_params` over the first n parameters (its properties are `ParseFaults`, `ParseOwner` and `ParseBranch`) |
| Jenkins.Parse | pyhole/plugins/jenkins.py:92-102 | what `parse_params` returns or raises: the loop over all parameters |
| Jenkins.Step | pyhole/plugins/jenkins.py:97-100 | one parameter raises `KeyError` exactly when it has no `name`, or is the owner or branch without `value` |
| Jenkins.ParseFaults | pyhole/plugins/jenkins.py:96-100 | `parse_params` raises exactly when some parameter is faulty |
| Jenkins.ParseOwner | pyhole/plugins/jenkins.py:93-102 | the owner is the `value` of the last `GITHUB_OWNER` entry, `None` when there is none; other entries are ignored |
| Jenkins.ParseBranch | pyhole/plugins/jenkins.py:94-102 | the branch is the `value` of the last `GITHUB_BRANCH` entry, `None` when there is none; other entries are ignored |
| Jenkins.ParseFaultSticks | pyhole/plugins/jenkins.py:96-100 | once a parameter raises, the whole call raises |
| Jenkins.ParseNeither | pyhole/plugins/jenkins.py:93-102 | with no owner or branch entry, the result is `(None, None)` |
| Jenkins.ParseParams | pyhole/plugins/jenkins.py:92-102 | the loop returns or raises what `Parse` describes |
| Jenkins.Key | pyhole/plugins/jenkins.py:52 | a kept entry is filed under `title - owner/branch`, with `None` for a missing owner or branch |
| Jenkins.FailuresPrefix | pyhole/plugins/jenkins.py:40-53 | `new_failures` after the loop has seen the first n entries (its properties are `FailuresKeys` and `FailuresLastWins`) |
| Jenkins.NewFailures | pyhole/plugins/jenkins.py:40-53 | `new_failures` after the whole feed |
| Jenkins.FailuresKeys | pyhole/plugins/jenkins.py:41-53 | `new_failures` has a key for each entry whose details were fetched and parsed, `title - owner/branch`, and no other key |
| Jenkins.FailuresLastWins | pyhole/plugins/jenkins.py:52-53 | each key maps to the link of the last entry filed under it |
| Jenkins.CollectFailures | pyhole/plugins/jenkins.py:40-53 | the loop builds `NewFailures`, skipping entries whose details fail |
| Jenkins.Notice | pyhole/plugins/jenkins.py:65 | the notice text `[BUILD FAILED] title: url` |
| Jenkins.Announce | pyhole/plugins/jenkins.py:62-67 | the notices are `[BUILD FAILED] title: url` for exactly the keys of `new` missing from `old`, one per key |
| Jenkins.AnnouncesNothingTwice | pyhole/plugins/jenkins.py:62 | when the cache already holds every failure, nothing is announced |
| Jenkins.Poller.constructor | pyhole/plugins/jenkins.py:76-79 | the poller starts with the stored cache |
| Jenkins.Poller.PollBadBuilds | pyhole/plugins/jenkins.py:31-69 | a malformed feed changes nothing; an unreadable cache is written with no announcement; otherwise the missing failures are announced; in both latter cases the cache becomes `new_failures`, dropping old entries |
| Text.Drop | pyhole/plugins/standup.py:236 | slicing `s[n:]` past the end gives the empty string, and otherwise the tail |
| Text.Split | pyhole/plugins/standup.py:129 | `str.split(sep)` gives at least one part and no part holds the separator |
| Text.Join | pyhole/plugins/standup.py:90 | `str.join(sep, parts)`; its properties are `JoinSplit`, `SplitJoinChar` and `JoinAppend` |
| Text.JoinSplit | pyhole/plugins/standup.py:80-90 | joining the split parts gives back the text |
| Text.SplitJoinChar | pyhole/plugins/standup.py:80-90 | splitting joined parts that lack the separator gives back the parts |
| Text.SplitCharCount | pyhole/plugins/standup.py:129 | splitting on a character gives one more part than its occurrences |
| Text.JoinAppend | pyhole/plugins/standup.py:90 | joining one more part adds the separator and the part |
| Text.ContainsIff | pyhole/plugins/tophat.py:122 | `sub in s` holds exactly when `sub` occurs at some index of `s` |
| Text.Token | pyhole/plugins/standup.py:164 | `s.split(' ')[0]` is a space-free prefix of `s` that ends at a space or at the end |
| Text.Trim | pyhole/plugins/tophat.py:147 | `strip` gives a slice `s[i:j]` with only stripped characters before `i` and after `j`, and no stripped character at either end of the result |
| Text.TrimAround | pyhole/plugins/tophat.py:147 | stripping text wrapped in stripped characters gives the text back |
| Text.TrimNothing | pyhole/plugins/tophat.py:147 | stripping text with nothing to strip changes nothing |
| Text.ParseIntText | pyhole/plugins/tophat.py:125 | whatever `int()` accepts has the shape `IntText`: whitespace, then an optional sign with whitespace after it, then a non-empty run of decimal digits, then whitespace; its value is the digits' value, negated after `-` |
| Text.ParseIntOfText | pyhole/plugins/tophat.py:125 | every text of that shape is accepted, as the number it spells |
| Text.ParseIntRejects | pyhole/plugins/standup.py:49 | a text of no such shape makes `int()` raise `ValueError` |
| Text.ParseIntSpaced | pyhole/plugins/standup.py:49 | `int()` reads digits surrounded by whitespace as their value |
| Text.ParseIntSignSpaced | pyhole/plugins/tophat.py:125 | `int()` reads a sign, whitespace and digits, all surrounded by whitespace, as the signed value |
| Text.ParseIntSigned | pyhole/plugins/standup.py:49 | the same with nothing around the number: `- 3` is -3 |
| Text.ParseIntToString | pyhole/plugins/tophat.py:125 | `int()` reads back the text of every integer |
| Text.WordChars | pyhole/plugins/standup.py:131 | `re.sub("\W+", '', s)` keeps every word character and drops every other one |
| Text.WordCharsOfWord | pyhole/plugins/standup.py:131 | text made of word characters is left unchanged |
| Text.WordCharsIdempotent | pyhole/plugins/standup.py:131 | applying it twice is applying it once |
| Text.WordCharsConcat | pyhole/plugins/standup.py:131 | it works character by character: keeping the order, it distributes over concatenation |
| Text.LexLeTotal | pyhole/plugins/standup.py:232 | any two strings are ordered one way or the other |
| Text.LexLeTransitive | pyhole/plugins/standup.py:232 | string order is transitive |
| Text.LexLeAntisymmetric | pyhole/plugins/standup.py:232 | strings ordered both ways are equal |
| Sorting.Sort | pyhole/plugins/tophat.py:61 | `sorted` returns a permutation of its input |
| Sorting.InsertSorted | pyhole/plugins/tophat.py:61 | inserting into a sorted list keeps it sorted |
| Sorting.SortSorted | pyhole/plugins/tophat.py:61 | `sorted` output is ordered by the key |
| Sorting.SortHead | pyhole/plugins/tophat.py:61 | the stable sort puts first the earliest of the greatest elements |
| Sorting.SortUnique | pyhole/plugins/standup.py:232 | for an antisymmetric order, `sorted` depends only on the multiset of its input |

## Left out

- IRC plumbing is not part of this model: `reply`, `notice`, `source` and the hook
  decorators. Replies are returned values and the caller's source is a parameter.
- `utils.read_file`, `utils.write_file` and JSON (de)serialisation are not part of this
  model. Persisted files are class fields.
  - JSON values are modelled as strings: reservation `name`/`time`, build parameters.
  - A document that is missing or does not decode is `None`.
  - `stop` and the elector hand `write_file` a Python dict rather than JSON text. The file
    is taken to hold the dict's printed form, which does not decode as JSON, so the next
    load falls back to a fresh ledger.
- Threads and timing: the `@utils.spawn` thread, its `while True` loop with
  `time.sleep(30)`, and `time.sleep(1)` between notices.
- Teatime.TopHat.ElectorPoll: models one wake-up of the elector's loop. It does not model
  the early return when an elector is already running, because that guard exists only to
  serialise threads.
- Clocks and calendars are parameters: `time.time()` is an integer `now`, `date.today()`
  is a day number, and `time.strftime` results are strings passed in.
  - `formatted_date` is not modelled, because days are not formatted.
  - The float arithmetic of `time.time() + timer` is exact integer arithmetic here.
- Teatime.StartMinutes: its own contract states only the bare `start` case. What
  `int(params[5:])` gives is stated by Teatime.StartMinutesParsed instead, which keeps the
  proofs of the commands that use it small.
- Standup.GetDate: day arithmetic is unbounded. The `OverflowError` that
  `date.today() - timedelta(n)` raises outside the years 1 to 9999 is not modelled.
- Standup.NumberRepr: takes the `int` range of a 64-bit build. On a 32-bit build the `L`
  appears from 2**31 on, which is not modelled.
- Text.ParseInt: models `int()` on ASCII `str` text. The non-ASCII digits and whitespace
  that `int()` accepts in `unicode` text are not modelled.
- `get_date` on unicode text: Standup.GetDate treats every parameter as a `str`. A
  `unicode` value, which `isinstance(_date, str)` rejects, is not modelled.
- Standup.Comedian.Scrum: `NoTimeTravel` stands for the fixed time-travel paragraph, and
  `NothingFor(day)` for "I don't have anything for <date>"; the wording is not modelled.
- Jenkins.Poller.PollBadBuilds: `read_url` (wget), lxml parsing and the JSON lookup of
  `actions[0].parameters` are not part of this model. The feed arrives parsed, and each
  entry's details are `None` when any of those steps fails.
  - An entry without a title or link, which raises outside the `try`, is not modelled.
  - Nor is `str(title)` failing on non-ASCII titles.
- `joke`, `load_jokes`, `tophat`, `suit` and `warmachine` are not modelled. They are
  random choice or fixed replies.
- `print` and `LOG` calls are not modelled.
- `unicode(params)` conversions are the identity here.
