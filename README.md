# Solar deal tracker — a verified model of the deal engine

The repository is a chat bot for solar-sales teams. Reps type hashtag
commands in a Discord server (`#set`, `#sold`, `#cancel`, `#canceled`,
`#delete`, `#clearleaderboard`) or `!` commands (`!sold` and `!mystats` in
`solar_deal_tracker_dev.py`), the bot keeps a ledger of "deals" in a JSON
file, and it renders daily, weekly and monthly leaderboards per closer and
per setter. Three iterations of the bot are modelled here, one Dafny module
each:

- `SolarDealTrackerDev2` (`solar_deal_tracker_dev2.py`) covers the following.
  - A numbered ledger, the class `Ledger`, with `_add_deal` and `#sold`.
    `#sold` has two grammars, one with a `@mention` and one with the setter
    named by a token.
  - `#cancel`, `#delete` and `#clearleaderboard`.
  - `_find_latest_deal_by_customer`, `_filter_deals_period` and `_period_bounds`.
  - The two aggregators, and the `mystats` filter.
- `SolarDealTrackerDev` (`solar_deal_tracker_dev.py`) covers the following.
  - `_deal_type` and the exact `kw == 0` battery-only partition, with
    `_count_by_type` and `_split_deals_by_type`.
  - `_aggregate_by_person` and its name-ordered sort.
  - `_period_bounds`, which refuses unknown kinds.
  - `_filter_deals_by_period`, the id assignment of `!sold`, and the
    match rule of `!mystats`.
- `SolarDealTracker` (`solar_deal_tracker.py`) covers the original bot.
  - A dictionary of appointments keyed by `name_epoch`, the class `Tracker`.
  - The `#set`, `#sold` and `#canceled` branches of `on_message`.
  - The kW token validator, the `LOSS_REASONS` mapping, and the counting
    loop of `mystats`.

Shared modules hold what the three files use alike.

| Module | Contents |
|---|---|
| `Text` | Python's `str.strip`, `str.split`, `" ".join`, `str.lower`, `str.isdigit` and string ordering |
| `Lists` | Order-preserving list comprehensions and sums |
| `Sorting` | Python's stable `list.sort` |
| `Grouping` | The dictionary-of-counters aggregation loop and its specification |
| `Calendar` | Civil dates, `toordinal`, `weekday` and the day, week and month periods |

The ledgers are classes whose methods update their fields in place. Each
method is proved against a function of the old state (`CancelStep`,
`DeleteStep`, `ClearStep`, `SoldStep`, `CanceledStep`, `Put`). The
properties the source promises are proved about those functions.

Some behaviour of the code worth knowing, which the model keeps:

- In `solar_deal_tracker.py`, `#sold` and `#canceled` change the first
  record whose name matches, whatever its status.
- `solar_deal_tracker_dev.py` sorts people by deal count descending and then
  by lower-cased name, not by kW.
- `_period_bounds` in `solar_deal_tracker_dev.py` raises on any kind other
  than day, week or month. The model returns `None` there.

## Model

| member | source | states |
|---|---|---|
| SolarDealTrackerDev2.Ledger.constructor | solar_deal_tracker_dev2.py:35-47 | A missing or unreadable ledger starts with no deals and `next_id` 1 |
| SolarDealTrackerDev2.Ledger.AddDeal | solar_deal_tracker_dev2.py:103-121 | The new deal takes the old `next_id`, `next_id` grows by exactly one, the deal goes last with status closed, the earlier deals are unchanged, and ids stay increasing and below `next_id` |
| SolarDealTrackerDev2.AppendKeepsNumbering | solar_deal_tracker_dev2.py:103-119 | Appending a deal numbered `next_id` keeps every id below the new `next_id` and the ids increasing |
| SolarDealTrackerDev2.NumberedIsDistinct | solar_deal_tracker_dev2.py:103-104 | Ids handed out from the counter never repeat |
| SolarDealTrackerDev2.FilterKeepsNumbering | solar_deal_tracker_dev2.py:621-623 | Removing deals from the list keeps the numbering invariant |
| SolarDealTrackerDev2.MarkKeepsNumbering | solar_deal_tracker_dev2.py:561-562 | Changing a deal's status in place keeps the numbering invariant |
| SolarDealTrackerDev2.GuildDeals | solar_deal_tracker_dev2.py:90-91 | Every deal returned belongs to the guild, and every deal of the guild is returned |
| SolarDealTrackerDev2.CandidatesSpec | solar_deal_tracker_dev2.py:127-131 | The candidates are exactly the guild's deals whose stripped, lower-cased customer name matches, each with its own timestamp, in ledger order |
| SolarDealTrackerDev2.FindLatest | solar_deal_tracker_dev2.py:124-138 | A deal found belongs to the guild and names the customer under strip and lower-case |
| SolarDealTrackerDev2.FindLatestNone | solar_deal_tracker_dev2.py:124-133 | Nothing is found if and only if no deal of the guild names the customer |
| SolarDealTrackerDev2.FindLatestIsLatest | solar_deal_tracker_dev2.py:134-138 | The deal found has the greatest `created_at` string among the matches, and every earlier match is strictly older, so ties go to the earliest |
| SolarDealTrackerDev2.FirstLeastIsNewest | solar_deal_tracker_dev2.py:134-138 | The first newest candidate is not older than any candidate and strictly newer than every candidate before it |
| SolarDealTrackerDev2.FoundIsFirstLeast | solar_deal_tracker_dev2.py:134-138 | The head of the descending stable sort is the first candidate with the newest timestamp |
| SolarDealTrackerDev2.NewerFirstPreorder | solar_deal_tracker_dev2.py:134-137 | Ordering by `created_at` descending is a total preorder |
| SolarDealTrackerDev2.SameCandidates | solar_deal_tracker_dev2.py:127-131 | Two ledgers that agree on the match and the timestamps have the same candidates |
| SolarDealTrackerDev2.SameLatest | solar_deal_tracker_dev2.py:124-138 | The latest deal depends only on each deal's guild, customer name and creation time |
| SolarDealTrackerDev2.AddedDealIsLatest | solar_deal_tracker_dev2.py:94-138 | A deal appended with a timestamp newer than every match is the one found next |
| SolarDealTrackerDev2.FirstMention | solar_deal_tracker_dev2.py:466-469 | The index returned is the first token of the form `<@…>`, and no such token comes before it |
| SolarDealTrackerDev2.SoldWithMentionAccepts | solar_deal_tracker_dev2.py:454-479 | With a mention, `#sold` is accepted if and only if it has at least four tokens, a mention token with at least one customer token after it, and a last token that parses as a float |
| SolarDealTrackerDev2.SoldWithMentionFields | solar_deal_tracker_dev2.py:475-482 | With a mention, the setter is the mentioned member, the kW is the float of the last token, and the customer's tokens are exactly those between the mention and the last token |
| SolarDealTrackerDev2.SoldByNameAccepts | solar_deal_tracker_dev2.py:484-491 | Without a mention, `#sold` is accepted if and only if it has at least four tokens and the last token parses as a float |
| SolarDealTrackerDev2.SoldByNameFields | solar_deal_tracker_dev2.py:484-492 | Without a mention, token 1 is the setter's name, there is no setter id, the kW is the last token's float, and the customer's tokens are tokens 2 to n-2 |
| SolarDealTrackerDev2.SliceOfSplit | solar_deal_tracker_dev2.py:477-480 | A slice of the message's tokens is still a list of non-empty tokens without spaces, so joining and re-splitting gives it back |
| SolarDealTrackerDev2.SoldRequest | solar_deal_tracker_dev2.py:454-492 | A request is only accepted from at least four tokens; its acceptance and fields are stated by `SoldWithMentionAccepts`, `SoldWithMentionFields`, `SoldByNameAccepts` and `SoldByNameFields` |
| SolarDealTrackerDev2.ParseSold | solar_deal_tracker_dev2.py:454-492 | The parsing steps of `#sold` give exactly the specified request, or reject it |
| SolarDealTrackerDev2.Ledger.Sold | solar_deal_tracker_dev2.py:452-505 | A rejected `#sold` leaves the ledger and `next_id` alone; an accepted one appends the parsed deal with the author as closer and the next id |
| SolarDealTrackerDev2.CommandArgument | solar_deal_tracker_dev2.py:544-547 | There is no argument if and only if the message has fewer than two tokens; an argument is non-empty and already stripped |
| SolarDealTrackerDev2.ArgumentNotBlank | solar_deal_tracker_dev2.py:544-547 | The rest after `split(maxsplit=1)` is never blank |
| SolarDealTrackerDev2.CancelStep | solar_deal_tracker_dev2.py:544-562 | The ledger keeps its length. The outcome is the usage error exactly when there is no argument, and a deal is reported canceled exactly when the ledger changes |
| SolarDealTrackerDev2.CancelOnlyMarks | solar_deal_tracker_dev2.py:548-562 | `#cancel` changes at most one deal, and only when it reports that deal canceled. That deal was not canceled before, only its status and `canceled_at` change, and guild, name and timestamp are kept |
| SolarDealTrackerDev2.MarkOne | solar_deal_tracker_dev2.py:561-562 | Marking one deal canceled keeps every lookup field and touches no other position |
| SolarDealTrackerDev2.CancelTwice | solar_deal_tracker_dev2.py:555-559 | A second `#cancel` of the same customer reports "already canceled" and changes nothing, `canceled_at` included |
| SolarDealTrackerDev2.Ledger.Cancel | solar_deal_tracker_dev2.py:542-563 | The in-place update produces the outcome and ledger of `CancelStep`: usage error, not found, already canceled, or that one deal marked; `next_id` is kept |
| SolarDealTrackerDev2.Ledger.MarkAt | solar_deal_tracker_dev2.py:561-562 | Only the deal at that position changes: its status and cancel time |
| SolarDealTrackerDev2.DeleteStep | solar_deal_tracker_dev2.py:597-623 | Without the admin or manager role, without an argument, or with no deal found, nothing changes. Otherwise exactly the deals carrying the found id go and every other deal stays |
| SolarDealTrackerDev2.DeleteRemovesLatest | solar_deal_tracker_dev2.py:614-623 | With unique ids, `#delete` removes exactly the customer's latest deal and keeps the rest in order |
| SolarDealTrackerDev2.Ledger.Delete | solar_deal_tracker_dev2.py:597-623 | The in-place update produces the outcome and ledger of `DeleteStep`, and `next_id` is kept |
| SolarDealTrackerDev2.Ledger.KeepOnly | solar_deal_tracker_dev2.py:652-654 | Reassigning the list to a filter of itself keeps its order, `next_id` and the numbering invariant |
| SolarDealTrackerDev2.ClearStep | solar_deal_tracker_dev2.py:640-654 | Only the admin or manager role clears, and nothing changes otherwise |
| SolarDealTrackerDev2.ClearOnlyThisGuild | solar_deal_tracker_dev2.py:652-654 | After `#clearleaderboard` the guild has no deals, and every other guild's deals are exactly as before |
| SolarDealTrackerDev2.Ledger.ClearLeaderboard | solar_deal_tracker_dev2.py:640-654 | The in-place update produces the ledger of `ClearStep`, and `next_id` is kept |
| SolarDealTrackerDev2.FilterPeriod | solar_deal_tracker_dev2.py:141-164 | Exactly the guild's deals, in order, that are not deleted, not canceled unless asked for, and whose parsed timestamp lies in `[start, end)` |
| SolarDealTrackerDev2.WindowMembers | solar_deal_tracker_dev2.py:147-163 | A deal is kept if and only if it is the guild's and passes the window test |
| SolarDealTrackerDev2.AggregateByCloser | solar_deal_tracker_dev2.py:167-182 | One row per closer id, as follows. Each row has its deal count, its kW sum with a missing kW as 0, and the first name seen. The counts add up to the number of deals. Rows are sorted by (deals, kW) descending |
| SolarDealTrackerDev2.EveryDealHasCloser | solar_deal_tracker_dev2.py:170-178 | Every deal is counted under its closer |
| SolarDealTrackerDev2.AggregateBySetter | solar_deal_tracker_dev2.py:185-203 | One row per stripped, lower-cased setter name, blank names skipped. Counts and kW are as for closers, and the rows are sorted by (deals, kW) descending |
| SolarDealTrackerDev2.BlankSetterSkipped | solar_deal_tracker_dev2.py:189-191 | Deals whose setter name is blank make no row |
| SolarDealTrackerDev2.RanksAbovePreorder | solar_deal_tracker_dev2.py:181 | The (deals, kW) descending order is a total preorder |
| SolarDealTrackerDev2.PeriodBounds | solar_deal_tracker_dev2.py:206-240 | The local period contains the date; the UTC bounds are the local midnights converted |
| SolarDealTrackerDev2.PeriodBoundsByKind | solar_deal_tracker_dev2.py:213-236 | The periods are as follows, with kind compared in lower case. Day and today give `[d, d+1)`. Week and thisweek give the Monday on or before `d` and seven days on. Month and thismonth give the 1st to the 1st of the next month, December rolling into January. Any other kind gives the day |
| SolarDealTrackerDev2.PeriodBoundsOrdered | solar_deal_tracker_dev2.py:238-240 | With an order-preserving UTC conversion, the UTC window is not empty |
| SolarDealTrackerDev2.MyStats | solar_deal_tracker_dev2.py:749-757 | The count is at most the number of the guild's deals |
| SolarDealTrackerDev2.MyStatsIsCloserRow | solar_deal_tracker_dev2.py:750-757 | A user's stats are exactly their closer row over the guild's non-canceled deals |
| SolarDealTrackerDev.DealType | solar_deal_tracker_dev.py:69-73 | "battery_only" if and only if kW is exactly 0, and "solar_battery" otherwise |
| SolarDealTrackerDev.TypeOf | solar_deal_tracker_dev.py:116-119 | A stored `deal_type` takes precedence; otherwise the type comes from the kW. It is unknown exactly when that kW cannot be read, and battery-only exactly when it is 0 |
| SolarDealTrackerDev.TypePartition | solar_deal_tracker_dev.py:127-139 | Every deal lands in exactly one of the two lists, so the lengths add up and the multisets join to the input |
| SolarDealTrackerDev.CountByType | solar_deal_tracker_dev.py:111-124 | It fails exactly when some deal's type cannot be worked out; otherwise the counts are the lengths of the two typed sub-lists |
| SolarDealTrackerDev.SplitByType | solar_deal_tracker_dev.py:127-139 | It fails exactly when some deal's type cannot be worked out; otherwise the two lists are the typed sub-lists in input order |
| SolarDealTrackerDev.CountIsSplit | solar_deal_tracker_dev.py:111-139 | `_count_by_type` gives the lengths of `_split_deals_by_type`'s lists, and they add up to the input's length |
| SolarDealTrackerDev.AggregateByPerson | solar_deal_tracker_dev.py:76-100 | One row per non-empty closer or setter name, keyed and named by that name, as follows. Each row has its count and its kW sum, with unreadable kW as 0. The counts add up to the deals that have a name. Rows are sorted by deals descending, then lower-cased name ascending |
| SolarDealTrackerDev.NameIsKey | solar_deal_tracker_dev.py:86-98 | A row's name is the key it was grouped under |
| SolarDealTrackerDev.EmptyNameSkipped | solar_deal_tracker_dev.py:86-88 | A missing or empty name makes no row |
| SolarDealTrackerDev.ByDealsThenNamePreorder | solar_deal_tracker_dev.py:99 | The sort key (-deals, lower(name)) is a total preorder |
| SolarDealTrackerDev.PeriodBounds | solar_deal_tracker_dev.py:149-174 | Only day, week and month are accepted, in any case; the period then contains the date and the UTC bounds are its converted local midnights |
| SolarDealTrackerDev.PeriodBoundsByKind | solar_deal_tracker_dev.py:151-168 | Day gives `[d, d+1)`. Week gives the Monday on or before `d` and seven days on. Month gives the 1st to the 1st of the next month, across the year end |
| SolarDealTrackerDev.FilterByPeriod | solar_deal_tracker_dev.py:177-199 | For a valid kind, exactly the deals, in order, whose timestamp is present, parses and lies in `[start, end)`, with no status filter; an unknown kind fails |
| SolarDealTrackerDev.MyDealsCountedOnce | solar_deal_tracker_dev.py:458-459 | A deal the user both closed and set is counted once |
| SolarDealTrackerDev.NewDealType | solar_deal_tracker_dev.py:394-416 | A new deal's kW defaults to 0.0, and it is battery-only exactly when that kW is 0 |
| SolarDealTrackerDev.DealLog.Sold | solar_deal_tracker_dev.py:419-422 | The new deal's id is the number of stored deals plus one; it goes last and the others are unchanged |
| SolarDealTrackerDev.PositionsAreDistinct | solar_deal_tracker_dev.py:420 | Ids that are positions plus one are unique |
| SolarDealTracker.Get | solar_deal_tracker.py:126 | A key is found exactly when some entry carries it, and what is found is that entry's record |
| SolarDealTracker.Put | solar_deal_tracker.py:126 | `deals[k] = d` leaves `k` holding `d` and grows the dictionary by at most one entry |
| SolarDealTracker.PutEffect | solar_deal_tracker.py:126-134 | After `deals[key] = …` the key maps to the new record and every other key maps to what it did. Keys stay distinct and keep their places, and the dictionary grows only for a new key |
| SolarDealTracker.PutOther | solar_deal_tracker.py:126 | Storing under one key leaves every other key's record alone |
| SolarDealTracker.Values | solar_deal_tracker.py:196 | `deals.values()` lists the records in insertion order |
| SolarDealTracker.Tracker.SetAppointment | solar_deal_tracker.py:123-135 | `#set` stores under `lower(name) + "_" + epoch` a record with status set, the author as setter and no closer, kW or reason. An equal key is overwritten in place |
| SolarDealTracker.SoldStep | solar_deal_tracker.py:144-151 | `#sold` keeps every key in place. A record that changes is one whose name matches, and it becomes sold with the author as closer and the parsed kW |
| SolarDealTracker.SoldStepEffect | solar_deal_tracker.py:144-151 | `#sold` changes only the first record whose name matches case-insensitively, whatever its status: status sold, closer and kW. With no match nothing changes |
| SolarDealTracker.SoldTwice | solar_deal_tracker.py:144-151 | Repeating the same `#sold` changes nothing more |
| SolarDealTracker.Tracker.MarkSold | solar_deal_tracker.py:144-151 | The loop with `break` reports a match exactly when one exists and leaves the dictionary as `SoldStep` says |
| SolarDealTracker.CanceledStep | solar_deal_tracker.py:156-179 | `#canceled` keeps every key in place. A record that changes is one whose name matches, and it becomes canceled with the given loss reason |
| SolarDealTracker.CanceledStepEffect | solar_deal_tracker.py:156-179 | `#canceled` changes only the first record whose name matches: status canceled and the loss reason; keys and other records stay |
| SolarDealTracker.Tracker.MarkCanceled | solar_deal_tracker.py:154-182 | A reason is recorded exactly when a record matches, and it is `LossReason` of the two replies; the dictionary is as `CanceledStep` says |
| SolarDealTracker.LossReason | solar_deal_tracker.py:171-177 | A stripped first reply of 1 to 4 gives its `LOSS_REASONS` entry. Any other reply, 5 included, gives the stripped follow-up text |
| SolarDealTracker.LossCodes | solar_deal_tracker.py:16-22 | Codes 1 to 4 name reasons other than "other"; 5 and unknown codes give "other" |
| SolarDealTracker.KwToken | solar_deal_tracker.py:142 | A kW is read exactly when removing the first dot leaves a non-empty all-digit string, and it is never negative |
| SolarDealTracker.KwTokenOfNat | solar_deal_tracker.py:142 | A whole number written out is read back as itself |
| SolarDealTracker.TwoDotsRefused | solar_deal_tracker.py:142 | A token with two dots is never a kW |
| SolarDealTracker.LetterNotKw | solar_deal_tracker.py:142 | A word starting with a letter is never a kW |
| SolarDealTracker.RemoveFirstDot | solar_deal_tracker.py:142 | Removing the first dot joins the parts before and after it |
| SolarDealTracker.NoDotInDigits | solar_deal_tracker.py:142 | An all-digit token is its own whole part with no fraction |
| SolarDealTracker.ParseMessage | solar_deal_tracker.py:120-155 | `#set` and `#canceled` always carry a non-blank name (a prefix followed by nothing is stripped away) |
| SolarDealTracker.CommandWords | solar_deal_tracker.py:120-155 | A stripped message that starts with a command word and a space has at least two tokens and a non-blank rest |
| SolarDealTracker.SoldParts | solar_deal_tracker.py:139-142 | A message parsed as `#sold` has at least two tokens, and its name and kW come from them |
| SolarDealTracker.SoldNameTokens | solar_deal_tracker.py:140-141 | The `#sold` name's tokens are exactly tokens 1 to n-2 of the message |
| SolarDealTracker.SoldMessage | solar_deal_tracker.py:139-141 | `#sold w1 … wn` splits back into its words and parses from them |
| SolarDealTracker.SoldDropsLastWord | solar_deal_tracker.py:140-142 | As written, a last word that is not a number is dropped from the name and no kW is recorded |
| SolarDealTracker.SoldWithoutKwAsWritten | solar_deal_tracker.py:140-142 | As written, `#sold Jane Doe` looks for customer "Jane" with no kW |
| SolarDealTracker.ParseMessageIntended | solar_deal_tracker.py:139-142 | The corrected parser recognises the same commands, and `#set` and `#canceled` names are non-blank |
| SolarDealTracker.SoldIntendedWithoutKw | solar_deal_tracker.py:91 | `#sold First Last` with no kW names the whole customer and records no kW |
| SolarDealTracker.SoldWithoutKwIntended | solar_deal_tracker.py:91 | `#sold Jane Doe` looks for "Jane Doe" with no kW |
| SolarDealTracker.SoldIntendedWithKw | solar_deal_tracker.py:91 | `#sold First Last n` names the customer and records `n` kW |
| SolarDealTracker.CommandStep | solar_deal_tracker.py:122-182 | A parsed command grows the dictionary by at most one entry, and only `#set` grows it |
| SolarDealTracker.CommandKeepsKeys | solar_deal_tracker.py:122-182 | Any command keeps the keys distinct and in place. Only `#set` adds a key, at most one, and no command changes nothing |
| SolarDealTracker.MessageStep | solar_deal_tracker.py:116-184 | `on_message`, parsing as written, grows the dictionary by at most one entry, and only for a message from a person that parses as `#set` |
| SolarDealTracker.MessageKeepsKeys | solar_deal_tracker.py:116-184 | A message, parsed as written, keeps the keys distinct and in place. Only `#set` adds a key, at most one. Bot messages and other text change nothing |
| SolarDealTracker.JaneDoeNotSoldAsWritten | solar_deal_tracker.py:139-151 | As written, `#sold Jane Doe` changes nothing in a dictionary with no record named "Jane", even one holding "Jane Doe" |
| SolarDealTracker.Tracker.OnMessage | solar_deal_tracker.py:116-184 | The handler ignores bots and applies the command as the source parses it, leaving the dictionary as `MessageStep` says |
| SolarDealTracker.Tracker.Dispatch | solar_deal_tracker.py:122-182 | Each command's branch leaves the dictionary as `CommandStep` says |
| SolarDealTracker.MessageStepIntended | solar_deal_tracker.py:91 | With `#sold`'s kW optional, as the help text documents, a message still grows the dictionary by at most one entry, and only for `#set` |
| SolarDealTracker.MessageIntendedKeepsKeys | solar_deal_tracker.py:91 | The handler with `#sold`'s kW optional keeps the keys distinct and in place in the same way |
| SolarDealTracker.JaneDoeSoldIntended | solar_deal_tracker.py:91 | With the kW optional, `#sold Jane Doe` marks the first record named "Jane Doe" sold with the author as closer and no kW |
| SolarDealTracker.Tracker.OnMessageIntended | solar_deal_tracker.py:91 | The handler with `#sold`'s kW optional leaves the dictionary as `MessageStepIntended` says |
| SolarDealTracker.MyStats | solar_deal_tracker.py:190-202 | The statistics are as follows. `total` counts the author's appointments and `closed` the sold ones. `losses` has one row per loss reason, counting the author's canceled records under that reason. The losses add up to the canceled ones, and closed plus losses is at most `total` |
| Text.SplitJoin | solar_deal_tracker.py:140-141 | Splitting a single-space join of non-empty, space-free tokens gives the tokens back |
| Text.StripIdempotent | solar_deal_tracker.py:124 | Stripping twice is stripping once |
| Text.DigitsRoundTrip | solar_deal_tracker.py:142 | Reading back the decimal digits of a number gives the number |
| Text.StrLeTotal | solar_deal_tracker_dev2.py:134-137 | Python's string order is total |
| Text.StrLeTrans | solar_deal_tracker_dev2.py:134-137 | Python's string order is transitive |
| Sorting.SortSorted | solar_deal_tracker_dev2.py:181 | Sorting by a total preorder gives a sorted permutation |
| Sorting.FirstLeastIsLeast | solar_deal_tracker_dev2.py:134-138 | The first least element is not above any element and strictly below every element before it, so the stable sort's head is the first least |
| Sorting.SortHead | solar_deal_tracker_dev2.py:134-138 | The stable sort puts the first least element at the head |
| Grouping.Group | solar_deal_tracker_dev2.py:169-179 | The counter loop produces one row per key. Each row has the key's deal count, its kW sum and the first name seen, and the counts add up to the grouped deals |
| Grouping.GroupStep | solar_deal_tracker_dev2.py:170-179 | One more deal bumps its key's row, or adds one, and keeps the rows equal to the specification |
| Grouping.BumpEffect | solar_deal_tracker_dev2.py:172-179 | Bumping a key raises its count by one and its kW by the deal's, leaves other keys alone and keeps keys distinct |
| Grouping.SortKeepsRows | solar_deal_tracker_dev2.py:180-181 | Sorting the rows keeps every key's row and the total |
| Grouping.CountInIsWhere | solar_deal_tracker_dev2.py:178-179 | A key's count and kW are the length and kW sum of the deals under that key |
| Grouping.GroupedIsWhere | solar_deal_tracker_dev.py:86-89 | The deals grouped are exactly the deals with a key |
| Lists.WherePartition | solar_deal_tracker_dev.py:131-138 | Two complementary filters split a list with nothing lost or duplicated |
| Lists.WhereMembers | solar_deal_tracker_dev2.py:90-91 | A filter keeps exactly the elements that pass its test |
| Lists.FirstWhere | solar_deal_tracker.py:144-145 | The index found is the first that passes the test; none is found only when none passes |
| Calendar.Bounds | solar_deal_tracker_dev2.py:213-236 | Every period contains its date |
| Calendar.DayBounds | solar_deal_tracker_dev2.py:217-219 | A day runs from the date to the next day |
| Calendar.WeekBounds | solar_deal_tracker_dev2.py:221-224 | A week runs from the Monday on or before the date for seven days |
| Calendar.MonthBounds | solar_deal_tracker_dev2.py:226-231 | A month runs from its 1st to the 1st of the next, December rolling into January of the next year, and has as many days as the month |
| Calendar.SamePeriod | solar_deal_tracker_dev2.py:213-236 | A date lies in the period of `d` if and only if its own period is that period |
| Calendar.SameMonday | solar_deal_tracker_dev2.py:222 | Every date of a week has the same Monday |
| Calendar.OrdinalOrder | solar_deal_tracker_dev2.py:219-231 | Day numbers follow calendar order and tell dates apart |
| Calendar.AddDays | solar_deal_tracker_dev2.py:219-224 | Adding `k` days moves the day number by `k` |

## Left out

- SolarDealTrackerDev2.FilterPeriod and SolarDealTrackerDev.FilterByPeriod take `parse` as yielding only offset-aware instants. In the source the window comparison sits outside the `try` (solar_deal_tracker_dev2.py:162, solar_deal_tracker_dev.py:197). A stored timestamp without a UTC offset parses to a naive datetime, so that comparison raises TypeError and aborts the command. This raising path is not modelled: the model can only skip or keep a record.
- Calendar.Valid has no upper bound on the year. Python's `date` stops at 9999, so in the source the day period of 9999-12-31 raises OverflowError and the month period of December 9999 raises ValueError (solar_deal_tracker_dev2.py:219, 229). The model gives those periods a year 10000 end instead.

- The chat platform is out of scope:
  - Discord events, embeds, channel management and pinned help;
  - the leaderboard rendering (`_build_leaderboard_embed`) and `_post_today_leaderboards`;
  - the `!leaderboard` command and `process_commands`.
  Only the data they read or change is modelled.
- JSON persistence is not modelled: `_load_deals`, `_save_deals`, `load_json`, `save_json` and the temporary-file replace. The ledger is an in-memory object, and a write that fails is not modelled.
- The clock is a parameter: the `now` string and the epoch seconds.
- The `America/Chicago` time zone and its DST offsets are not modelled.
  - The conversion of a local midnight to UTC is a parameter `toUtc`.
  - ISO timestamp parsing is a partial function `parse`.
  - Only the calendar arithmetic is proved.
- Python `float()` is a partial function parameter in `solar_deal_tracker_dev2.py` and `solar_deal_tracker_dev.py`. "nan", "inf" and negative values are whatever it returns.
- kW is an exact `real`. Floating-point rounding in sums and the `:.1f` formatting are not modelled.
- The `bot.wait_for` DM exchange of `#canceled` is not modelled. The two replies are parameters, and `LossReason` is the pure mapping.
- `send_ghl_event` (a webhook) is not modelled.
- Role checks are a boolean `privileged`.
- `str.lower` and `str.isdigit` are ASCII-only. Unicode case mapping and Unicode digits are not modelled.
- SolarDealTrackerDev2.FindLatest compares `created_at` strings as Python does. The result is a position in the ledger, not a reference to the dict.
- The prefix dispatch of `on_message` in `solar_deal_tracker_dev2.py` is left to the caller. That covers the order of the `startswith` tests, the leaderboard-channel guard, and `#cancel` also catching `#canceled`. `Ledger.Sold`, `Ledger.Cancel`, `Ledger.Delete` and `Ledger.ClearLeaderboard` take the message once it is routed.
- SolarDealTrackerDev2.Ledger.Sold takes the resolved `@mention` as a value. Discord's mention resolution is not modelled.
- SolarDealTrackerDev2.Ledger.Cancel does not model the `canceled_at` field being absent before a cancel. It is `None` in the model.
- SolarDealTrackerDev2.MyStats states the count bound. The kW total is stated through `MyStatsIsCloserRow`, not on its own.
- SolarDealTrackerDev.MyDealsCountedOnce covers the match rule of `mystats`. The per-period `lines` text and the kW total are not modelled.
- SolarDealTrackerDev.DealLog.Sold takes the converted arguments of the `sold` command. Discord's argument converters are not modelled.
- SolarDealTracker.Tracker.MarkCanceled sets the status and the reason in one step. The source sets the status before waiting for the DM reply, and a reply that never comes is not modelled.

## Findings

| source | as written | input that shows it | evidently intended | confidence | as-written member | corrected member |
|---|---|---|---|---|---|---|
| solar_deal_tracker.py:139-142 | `#sold` always takes tokens 1 to n-2 as the customer and the last token as the kW, even when the last token is not a number | `#sold Jane Doe` looks for customer "Jane" and records no kW, so a record named "Jane Doe" is never marked sold | The help text at line 91 documents `#sold First Last [kW]`: the kW is optional, and without it the whole rest is the name | not executed | SolarDealTracker.SoldWithoutKwAsWritten | SolarDealTracker.SoldWithoutKwIntended |

The as-written parser is `SolarDealTracker.ParseMessage`. `SoldDropsLastWord`
proves that it drops any non-numeric last word.

The corrected parser is `SolarDealTracker.ParseMessageIntended`. It takes the
last token as the kW only when it passes the digit test. `SoldIntendedWithoutKw`
and `SoldIntendedWithKw` prove both cases.

`MessageStep`, `Tracker.OnMessage` and `MessageKeepsKeys` model `on_message`
as written, with `ParseMessage`. `JaneDoeNotSoldAsWritten` shows the handler
leaving a "Jane Doe" record untouched.

`MessageStepIntended`, `Tracker.OnMessageIntended` and
`MessageIntendedKeepsKeys` are the corrected handler. `JaneDoeSoldIntended`
shows it marking that record sold.
