/**
 * The deal ledger of the second development version of the bot: deals carry
 * an id, the guild (server) they were logged in, setter and closer, customer,
 * kW, a status (closed, canceled or deleted) and ISO timestamps. Commands
 * append to the ledger (`#sold`), mark the latest deal of a customer canceled
 * (`#cancel`), remove it (`#delete`) or wipe a guild (`#clearleaderboard`);
 * leaderboards filter a guild's deals by period and group them by closer or
 * by setter.
 *
 * The chat platform, the JSON file and the clock are parameters: the caller
 * passes the current time as an ISO string, the ISO parser as a partial
 * function, the float parser as a partial function, the resolved `@mention`
 * as a value and the role check as a boolean.
 */
module SolarDealTrackerDev2 {
  import opened Wrappers
  import opened Text
  import opened Lists
  import Sorting
  import opened Grouping
  import Calendar

  datatype Status = Closed | Canceled | Deleted

  datatype Deal = Deal(
    id: int,
    guildId: int,
    setterId: Option<int>,
    setterName: Option<string>,
    closerId: int,
    closerName: string,
    customerName: string,
    kw: Option<real>,
    status: Status,
    createdAt: string,        // "" when the record has none
    canceledAt: Option<string>)

  // ---------------------------------------------------------------------
  // Ledger numbering
  // ---------------------------------------------------------------------

  /** Ids grow along the list and all lie below the next id to hand out. */
  predicate WellNumbered(deals: seq<Deal>, nextId: int) {
    && (forall i :: 0 <= i < |deals| ==> deals[i].id < nextId)
    && (forall i, j :: 0 <= i < j < |deals| ==> deals[i].id < deals[j].id)
  }

  predicate DistinctIds(deals: seq<Deal>) {
    forall i, j :: 0 <= i < j < |deals| ==> deals[i].id != deals[j].id
  }

  lemma NumberedIsDistinct(deals: seq<Deal>, nextId: int)
    requires WellNumbered(deals, nextId)
    ensures DistinctIds(deals)
  {
  }

  /** Appending a deal numbered `nextId` and moving `nextId` on by one keeps the numbering. */
  lemma AppendKeepsNumbering(deals: seq<Deal>, nextId: int, d: Deal)
    requires WellNumbered(deals, nextId) && d.id == nextId
    ensures WellNumbered(deals + [d], nextId + 1)
  {
  }

  /** Dropping deals keeps the numbering. */
  lemma {:induction false} FilterKeepsNumbering(deals: seq<Deal>, nextId: int, keep: Deal -> bool)
    requires WellNumbered(deals, nextId)
    ensures WellNumbered(Where(deals, keep), nextId)
  {
    WherePairwise(deals, keep, (a: Deal, b: Deal) => a.id < b.id);
    WhereMembers(deals, keep);
  }

  /** Changing a deal's status fields keeps the numbering. */
  lemma MarkKeepsNumbering(deals: seq<Deal>, nextId: int, i: nat, now: string)
    requires WellNumbered(deals, nextId) && i < |deals|
    ensures WellNumbered(deals[i := MarkCanceled(deals[i], now)], nextId)
  {
  }

  // ---------------------------------------------------------------------
  // Guild view and customer lookup
  // ---------------------------------------------------------------------

  function InGuild(guild: int): Deal -> bool {
    (d: Deal) => d.guildId == guild
  }

  /** `_get_guild_deals`: the guild's deals in ledger order. */
  function GuildDeals(deals: seq<Deal>, guild: int): (r: seq<Deal>)
    ensures forall i :: 0 <= i < |r| ==> r[i] in deals && r[i].guildId == guild
    ensures forall i :: 0 <= i < |deals| && deals[i].guildId == guild ==> deals[i] in r
  {
    WhereMembers(deals, InGuild(guild));
    Where(deals, InGuild(guild))
  }

  /** The form in which customer names are compared: stripped and lower-cased. */
  function CustomerKey(name: string): string {
    Lower(Strip(name))
  }

  predicate IsCandidate(d: Deal, guild: int, key: string) {
    d.guildId == guild && CustomerKey(d.customerName) == key
  }

  /** A deal that may be the customer's latest, with the timestamp the sort compares. */
  datatype Candidate = Candidate(index: nat, createdAt: string)

  /** The test `_find_latest_deal_by_customer` applies to the guild's deals. */
  function IsCustomer(guild: int, key: string): Deal -> bool {
    (d: Deal) => IsCandidate(d, guild, key)
  }

  /** The deals that pass `matches`, in ledger order, by position in the ledger. */
  function Candidates(deals: seq<Deal>, matches: Deal -> bool): (r: seq<Candidate>)
    ensures |r| <= |deals|
  {
    if deals == [] then []
    else
      var n := |deals| - 1;
      Candidates(deals[..n], matches) + (if matches(deals[n]) then [Candidate(n, deals[n].createdAt)] else [])
  }

  /**
   * The candidates are exactly the deals that pass the test, each with its
   * own timestamp, in increasing ledger position.
   */
  lemma {:induction false} CandidatesSpec(deals: seq<Deal>, matches: Deal -> bool)
    ensures forall c :: c in Candidates(deals, matches) ==>
      c.index < |deals| && matches(deals[c.index]) && c.createdAt == deals[c.index].createdAt
    ensures forall i :: 0 <= i < |deals| && matches(deals[i]) ==> Candidate(i, deals[i].createdAt) in Candidates(deals, matches)
    ensures forall i, j :: 0 <= i < j < |Candidates(deals, matches)| ==>
      Candidates(deals, matches)[i].index < Candidates(deals, matches)[j].index
  {
    if deals != [] {
      var n := |deals| - 1;
      var init := deals[..n];
      CandidatesSpec(init, matches);
      var c := Candidates(init, matches);
      assert forall i :: 0 <= i < n ==> init[i] == deals[i];
      if matches(deals[n]) {
        var r := c + [Candidate(n, deals[n].createdAt)];
        assert Candidates(deals, matches) == r;
        assert forall i :: 0 <= i < |c| ==> r[i] == c[i];
        forall i, j | 0 <= i < j < |r| ensures r[i].index < r[j].index {
          if j == |c| {
            assert r[i] == c[i] && c[i] in c;
          } else {
            assert r[i] == c[i] && r[j] == c[j];
          }
        }
        forall i | 0 <= i < |deals| && matches(deals[i]) ensures Candidate(i, deals[i].createdAt) in r {
          if i < n {
            assert Candidate(i, init[i].createdAt) in c;
          }
        }
      } else {
        assert Candidates(deals, matches) == c;
        forall i | 0 <= i < |deals| && matches(deals[i]) ensures Candidate(i, deals[i].createdAt) in c {
          assert Candidate(i, init[i].createdAt) in c;
        }
      }
    }
  }

  /** The sort key of `candidates.sort(key=created_at, reverse=True)`: newer first, ties kept in place. */
  predicate NewerFirst(a: Candidate, b: Candidate) {
    StrLe(b.createdAt, a.createdAt)
  }

  lemma NewerFirstPreorder(c: seq<Candidate>)
    ensures Sorting.TotalPreorderOn(c, NewerFirst)
  {
    forall a, b | a in c && b in c ensures NewerFirst(a, b) || NewerFirst(b, a) {
      StrLeTotal(a.createdAt, b.createdAt);
    }
    forall a, b, x | a in c && b in c && x in c && NewerFirst(a, b) && NewerFirst(b, x)
      ensures NewerFirst(a, x)
    {
      StrLeTrans(x.createdAt, b.createdAt, a.createdAt);
    }
  }

  /**
   * `_find_latest_deal_by_customer`: the position in the ledger of the deal
   * that heads the guild's deals for the customer once they are sorted by
   * `created_at`, newest first.
   */
  function FindLatest(deals: seq<Deal>, guild: int, customer: string): (r: Option<nat>)
    ensures r.Some? ==> r.value < |deals| && IsCandidate(deals[r.value], guild, CustomerKey(customer))
  {
    var c := Candidates(deals, IsCustomer(guild, CustomerKey(customer)));
    if c == [] then None
    else
      var sorted := Sorting.Sort(c, NewerFirst);
      CandidatesSpec(deals, IsCustomer(guild, CustomerKey(customer)));
      assert sorted[0] in multiset(c);
      Some(sorted[0].index)
  }

  /** There is a latest deal exactly when some deal of the guild names the customer. */
  lemma FindLatestNone(deals: seq<Deal>, guild: int, customer: string)
    ensures FindLatest(deals, guild, customer).None? <==>
      forall i :: 0 <= i < |deals| ==> !IsCandidate(deals[i], guild, CustomerKey(customer))
  {
    var c := Candidates(deals, IsCustomer(guild, CustomerKey(customer)));
    CandidatesSpec(deals, IsCustomer(guild, CustomerKey(customer)));
    if c != [] {
      assert IsCandidate(deals[c[0].index], guild, CustomerKey(customer));
    }
  }

  /** The deal found is the first newest candidate. */
  lemma FoundIsFirstLeast(deals: seq<Deal>, guild: int, customer: string, i: nat)
    requires FindLatest(deals, guild, customer) == Some(i)
    ensures var c := Candidates(deals, IsCustomer(guild, CustomerKey(customer)));
      c != [] && c[Sorting.FirstLeast(c, NewerFirst)].index == i
  {
    var c := Candidates(deals, IsCustomer(guild, CustomerKey(customer)));
    Sorting.SortHead(c, NewerFirst);
  }

  /**
   * The deal found has the greatest `created_at` among the customer's deals,
   * and every earlier deal of the customer has a strictly smaller one: ties
   * go to the earliest deal, because the sort is stable.
   */
  lemma FindLatestIsLatest(deals: seq<Deal>, guild: int, customer: string, i: nat)
    requires FindLatest(deals, guild, customer) == Some(i)
    ensures forall j :: 0 <= j < |deals| && IsCandidate(deals[j], guild, CustomerKey(customer)) ==>
      StrLe(deals[j].createdAt, deals[i].createdAt)
    ensures forall j :: 0 <= j < i && IsCandidate(deals[j], guild, CustomerKey(customer)) ==>
      StrLt(deals[j].createdAt, deals[i].createdAt)
  {
    var key := CustomerKey(customer);
    var c := Candidates(deals, IsCustomer(guild, key));
    FoundIsFirstLeast(deals, guild, customer, i);
    CandidatesSpec(deals, IsCustomer(guild, key));
    var k := Sorting.FirstLeast(c, NewerFirst);
    FirstLeastIsNewest(c, k);
    forall j | 0 <= j < |deals| && IsCandidate(deals[j], guild, key)
      ensures StrLe(deals[j].createdAt, deals[i].createdAt)
      ensures j < i ==> StrLt(deals[j].createdAt, deals[i].createdAt)
    {
      assert IsCustomer(guild, key)(deals[j]);
      var p :| 0 <= p < |c| && c[p] == Candidate(j, deals[j].createdAt);
    }
  }

  /** The first newest candidate is at least as new as every candidate, and strictly newer than every earlier one. */
  lemma FirstLeastIsNewest(c: seq<Candidate>, k: nat)
    requires c != [] && k == Sorting.FirstLeast(c, NewerFirst)
    requires forall p, q :: 0 <= p < q < |c| ==> c[p].index < c[q].index
    ensures forall p :: 0 <= p < |c| ==> StrLe(c[p].createdAt, c[k].createdAt)
    ensures forall p :: 0 <= p < |c| && c[p].index < c[k].index ==> StrLt(c[p].createdAt, c[k].createdAt)
  {
    NewerFirstPreorder(c);
    Sorting.FirstLeastIsLeast(c, NewerFirst);
    forall p | 0 <= p < |c| && c[p].index < c[k].index
      ensures StrLt(c[p].createdAt, c[k].createdAt)
    {
      assert p < k;
      assert !NewerFirst(c[p], c[k]);
    }
  }

  /** The deals agree wherever the lookup looks: guild, customer and timestamp. */
  predicate SameLookupFields(a: seq<Deal>, b: seq<Deal>) {
    |a| == |b| &&
    forall i :: 0 <= i < |a| ==>
      a[i].guildId == b[i].guildId && a[i].customerName == b[i].customerName && a[i].createdAt == b[i].createdAt
  }

  /** Candidates depend only on the test and the timestamps. */
  lemma {:induction false} SameCandidates(a: seq<Deal>, b: seq<Deal>, matches: Deal -> bool)
    requires |a| == |b|
    requires forall i :: 0 <= i < |a| ==> matches(a[i]) == matches(b[i]) && a[i].createdAt == b[i].createdAt
    ensures Candidates(a, matches) == Candidates(b, matches)
  {
    if a != [] {
      var n := |a| - 1;
      SameCandidates(a[..n], b[..n], matches);
    }
  }

  // ---------------------------------------------------------------------
  // Adding a deal
  // ---------------------------------------------------------------------

  /** The record `_add_deal` appends: status closed, created now, never canceled. */
  function NewDeal(id: int, guildId: int, setterId: Option<int>, setterName: Option<string>, closerId: int,
                   closerName: string, customerName: string, kw: real, now: string): Deal
  {
    Deal(id, guildId, setterId, setterName, closerId, closerName, customerName, Some(kw), Closed, now, None)
  }

  /**
   * A deal just added is what a later `#cancel` or `#delete` of its customer
   * finds, provided its timestamp is newer than those of the customer's
   * earlier deals in the guild.
   */
  lemma AddedDealIsLatest(deals: seq<Deal>, d: Deal, name: string)
    requires IsCandidate(d, d.guildId, CustomerKey(name))
    requires forall j :: 0 <= j < |deals| && IsCandidate(deals[j], d.guildId, CustomerKey(name)) ==>
      StrLt(deals[j].createdAt, d.createdAt)
    ensures FindLatest(deals + [d], d.guildId, name) == Some(|deals|)
  {
    var all := deals + [d];
    FindLatestNone(all, d.guildId, name);
    assert IsCandidate(all[|deals|], d.guildId, CustomerKey(name));
    var i := FindLatest(all, d.guildId, name).value;
    FindLatestIsLatest(all, d.guildId, name, i);
    if i < |deals| {
      assert false;
    }
  }

  // ---------------------------------------------------------------------
  // #sold parsing
  // ---------------------------------------------------------------------

  /** The member a message mentions first, as the chat platform resolves it. */
  datatype Mention = Mention(id: int, displayName: string)

  /** What a valid `#sold` message asks to record. */
  datatype SoldArgs = SoldArgs(setterId: Option<int>, setterName: Option<string>, customer: string, kw: real)

  /** A token that looks like `<@…>`. */
  predicate IsMentionToken(t: string) {
    |t| >= 2 && t[..2] == "<@" && t[|t| - 1] == '>'
  }

  /** Where the first mention-shaped token is, if any. */
  function FirstMention(parts: seq<string>): (r: Option<nat>)
    ensures r.Some? ==> r.value < |parts| && IsMentionToken(parts[r.value])
    ensures forall j :: 0 <= j < |parts| && (r.None? || j < r.value) ==> !IsMentionToken(parts[j])
  {
    if parts == [] then None
    else if IsMentionToken(parts[0]) then Some(0)
    else
      match FirstMention(parts[1..])
      case None => None
      case Some(i) => Some(i + 1)
  }

  /** Tokens taken out of a split are words: non-empty and free of whitespace. */
  lemma SliceOfSplit(parts: seq<string>, lo: nat, hi: nat)
    requires forall t :: t in parts ==> t != [] && NoSpace(t)
    requires lo <= hi <= |parts|
    ensures forall t :: t in parts[lo..hi] ==> t != [] && NoSpace(t)
  {
    forall t | t in parts[lo..hi] ensures t in parts {
      var k :| 0 <= k < hi - lo && parts[lo..hi][k] == t;
      assert parts[lo + k] == t;
    }
  }

  /** What `str.split()` produces: non-empty tokens without whitespace. */
  predicate Words(parts: seq<string>) {
    forall t :: t in parts ==> t != [] && NoSpace(t)
  }

  /**
   * The `#sold` grammar over the message's tokens. With a mention: at least
   * four tokens, a mention token that is not the last one, the kW in the last
   * token, and at least one customer token strictly between them; the setter
   * is the mentioned member. Without one: at least four tokens, the setter's
   * name in token 1, the customer in tokens 2 to n-2 and the kW in the last
   * token.
   */
  function SoldRequest(parts: seq<string>, mention: Option<Mention>, parseFloat: string -> Option<real>): (r: Option<SoldArgs>)
    ensures r.Some? ==> |parts| >= 4
  {
    var n := |parts|;
    if n < 4 then None
    else
      match mention
      case Some(m) =>
        (match FirstMention(parts)
         case None => None
         case Some(idx) =>
           if n - idx < 2 then None
           else
             match parseFloat(parts[n - 1])
             case None => None
             case Some(kw) =>
               var customer := parts[idx + 1..n - 1];
               if customer == [] then None
               else Some(SoldArgs(Some(m.id), Some(m.displayName), Join(customer), kw)))
      case None =>
        match parseFloat(parts[n - 1])
        case None => None
        case Some(kw) =>
          var customer := parts[2..n - 1];
          if customer == [] then None
          else Some(SoldArgs(None, Some(parts[1]), Join(customer), kw))
  }

  /**
   * With a mention, `#sold` is accepted exactly when there are at least four
   * tokens, a mention token with at least one token between it and the last,
   * and a number in the last token.
   */
  lemma SoldWithMentionAccepts(parts: seq<string>, m: Mention, parseFloat: string -> Option<real>)
    ensures SoldRequest(parts, Some(m), parseFloat).Some? <==>
      |parts| >= 4 && FirstMention(parts).Some? && FirstMention(parts).value + 2 < |parts|
      && parseFloat(parts[|parts| - 1]).Some?
  {
  }

  /**
   * An accepted `#sold` with a mention names the mentioned member as setter,
   * takes the kW from the last token, and the customer's words are exactly
   * the tokens between the mention and the last token.
   */
  lemma SoldWithMentionFields(parts: seq<string>, m: Mention, parseFloat: string -> Option<real>)
    requires Words(parts)
    ensures SoldRequest(parts, Some(m), parseFloat).Some? ==>
      var a := SoldRequest(parts, Some(m), parseFloat).value;
      && a.setterId == Some(m.id) && a.setterName == Some(m.displayName)
      && Some(a.kw) == parseFloat(parts[|parts| - 1])
      && Split(a.customer) == parts[FirstMention(parts).value + 1..|parts| - 1]
  {
    if SoldRequest(parts, Some(m), parseFloat).Some? {
      var n, idx := |parts|, FirstMention(parts).value;
      var customer := parts[idx + 1..n - 1];
      assert Words(customer) by { SliceOfSplit(parts, idx + 1, n - 1); }
      SplitJoin(customer);
    }
  }

  /**
   * Without a mention, `#sold` is accepted exactly when there are at least
   * four tokens and the last is a number: the customer slice is never empty.
   */
  lemma SoldByNameAccepts(parts: seq<string>, parseFloat: string -> Option<real>)
    ensures SoldRequest(parts, None, parseFloat).Some? <==> |parts| >= 4 && parseFloat(parts[|parts| - 1]).Some?
  {
  }

  /** An accepted `#sold` without a mention has token 1 as setter and tokens 2 to n-2 as the customer's words. */
  lemma SoldByNameFields(parts: seq<string>, parseFloat: string -> Option<real>)
    requires Words(parts)
    ensures SoldRequest(parts, None, parseFloat).Some? ==>
      var a := SoldRequest(parts, None, parseFloat).value;
      && a.setterId == None && a.setterName == Some(parts[1])
      && Some(a.kw) == parseFloat(parts[|parts| - 1])
      && Split(a.customer) == parts[2..|parts| - 1]
  {
    if SoldRequest(parts, None, parseFloat).Some? {
      var customer := parts[2..|parts| - 1];
      assert Words(customer) by { SliceOfSplit(parts, 2, |parts| - 1); }
      SplitJoin(customer);
    }
  }

  /** The `#sold` branch of `on_message` from `parts = content.split()` up to the call of `_add_deal`. */
  method ParseSold(parts: seq<string>, mention: Option<Mention>, parseFloat: string -> Option<real>)
    returns (r: Option<SoldArgs>)
    ensures r == SoldRequest(parts, mention, parseFloat)
  {
    var n := |parts|;
    if n < 4 {
      return None;
    }
    match mention {
      case None =>
        var kw := parseFloat(parts[n - 1]);
        if kw.None? {
          return None;
        }
        var customer := parts[2..n - 1];
        if customer == [] {
          return None;
        }
        r := Some(SoldArgs(None, Some(parts[1]), Join(customer), kw.value));
      case Some(m) =>
        var mentionAt: Option<nat> := None;
        var i := 0;
        while i < n && mentionAt.None?
          invariant 0 <= i <= n
          invariant mentionAt.None? ==> forall j :: 0 <= j < i ==> !IsMentionToken(parts[j])
          invariant mentionAt.Some? ==> mentionAt == FirstMention(parts)
        {
          if IsMentionToken(parts[i]) {
            mentionAt := Some(i);
          }
          i := i + 1;
        }
        if mentionAt.None? {
          return None;
        }
        // `parts.index(mention_token)` finds the same position: no earlier
        // token is mention-shaped, so none equals it.
        var idx := mentionAt.value;
        if n - idx < 2 {
          return None;
        }
        var kw := parseFloat(parts[n - 1]);
        if kw.None? {
          return None;
        }
        var customer := parts[idx + 1..n - 1];
        if customer == [] {
          return None;
        }
        r := Some(SoldArgs(Some(m.id), Some(m.displayName), Join(customer), kw.value));
    }
  }

  // ---------------------------------------------------------------------
  // #cancel, #delete, #clearleaderboard
  // ---------------------------------------------------------------------

  /** `content.split(maxsplit=1)[1].strip()`, or nothing when there is no second token. */
  function CommandArgument(content: string): (r: Option<string>)
    ensures r.None? <==> |Split(content)| < 2
    ensures r.Some? ==> r.value != [] && Strip(r.value) == r.value
  {
    var parts := SplitOnce(content);
    if |parts| < 2 then None
    else
      ArgumentNotBlank(parts[1], content);
      StripIdempotent(parts[1]);
      Some(Strip(parts[1]))
  }

  lemma ArgumentNotBlank(rest: string, content: string)
    requires |SplitOnce(content)| == 2 && rest == SplitOnce(content)[1]
    ensures Strip(rest) != []
  {
    var u := TrimStart(content);
    var k := TokenEnd(u);
    var r := TrimStart(u[k..]);
    assert rest == r;
    StripWord(r);
  }

  function MarkCanceled(d: Deal, now: string): Deal {
    d.(status := Canceled, canceledAt := Some(now))
  }

  datatype CancelOutcome = CancelUsage | CancelNotFound | AlreadyCanceled | CanceledDeal(id: int)

  /**
   * The effect of `#cancel` on the ledger: usage error without an argument,
   * no deal found, the latest deal already canceled (nothing changes), or
   * that deal's status and cancel time set and nothing else touched.
   */
  function CancelStep(deals: seq<Deal>, guild: int, arg: Option<string>, now: string): (r: (CancelOutcome, seq<Deal>))
    ensures |r.1| == |deals|
    ensures r.0 == CancelUsage <==> arg.None?
    ensures r.0.CanceledDeal? <==> r.1 != deals
  {
    match arg
    case None => (CancelUsage, deals)
    case Some(name) =>
      match FindLatest(deals, guild, name)
      case None => (CancelNotFound, deals)
      case Some(i) =>
        if deals[i].status == Canceled then (AlreadyCanceled, deals)
        else (CanceledDeal(deals[i].id), deals[i := MarkCanceled(deals[i], now)])
  }

  /**
   * `#cancel` changes at most one deal, and only when it reports that deal
   * canceled: that deal was not canceled before, and only its status and
   * cancel time change.
   */
  lemma CancelOnlyMarks(deals: seq<Deal>, guild: int, arg: Option<string>, now: string)
    ensures var r := CancelStep(deals, guild, arg, now);
      && SameLookupFields(deals, r.1)
      && (!r.0.CanceledDeal? ==> r.1 == deals)
      && (forall j :: 0 <= j < |deals| && r.1[j] != deals[j] ==>
            r.1[j] == MarkCanceled(deals[j], now) && r.0 == CanceledDeal(deals[j].id) && deals[j].status != Canceled)
  {
    if arg.Some? {
      match FindLatest(deals, guild, arg.value) {
        case None =>
        case Some(i) =>
          if deals[i].status != Canceled {
            assert CancelStep(deals, guild, arg, now) == (CanceledDeal(deals[i].id), deals[i := MarkCanceled(deals[i], now)]);
            MarkOne(deals, i, now);
          }
      }
    }
  }

  /** Marking one deal canceled keeps every lookup field and leaves the other positions as they were. */
  lemma MarkOne(deals: seq<Deal>, i: nat, now: string)
    requires i < |deals|
    ensures var after := deals[i := MarkCanceled(deals[i], now)];
      && SameLookupFields(deals, after)
      && forall j :: 0 <= j < |deals| && after[j] != deals[j] ==> j == i
  {
  }

  /** Canceling the same customer twice: the second time reports it already canceled and changes nothing. */
  lemma CancelTwice(deals: seq<Deal>, guild: int, arg: Option<string>, now: string, later: string)
    requires CancelStep(deals, guild, arg, now).0.CanceledDeal?
    ensures var after := CancelStep(deals, guild, arg, now).1;
      CancelStep(after, guild, arg, later) == (AlreadyCanceled, after)
  {
    var after := CancelStep(deals, guild, arg, now).1;
    CancelOnlyMarks(deals, guild, arg, now);
    SameLatest(deals, after, guild, arg.value);
  }

  /** The latest deal of a customer depends only on the guild, name and creation time of each deal. */
  lemma SameLatest(a: seq<Deal>, b: seq<Deal>, guild: int, customer: string)
    requires SameLookupFields(a, b)
    ensures FindLatest(a, guild, customer) == FindLatest(b, guild, customer)
  {
    var m := IsCustomer(guild, CustomerKey(customer));
    assert forall i :: 0 <= i < |a| ==> m(a[i]) == m(b[i]);
    SameCandidates(a, b, m);
  }

  datatype DeleteOutcome = Forbidden | DeleteUsage | DeleteNotFound | DeletedDeal(id: int)

  function OtherId(id: int): Deal -> bool {
    (d: Deal) => d.id != id
  }

  /**
   * The effect of `#delete`: nothing without the admin or manager role, a
   * usage error without an argument, nothing when no deal is found, and
   * otherwise every deal with the found deal's id removed, in any guild.
   */
  function DeleteStep(deals: seq<Deal>, privileged: bool, guild: int, arg: Option<string>): (r: (DeleteOutcome, seq<Deal>))
    ensures !r.0.DeletedDeal? ==> r.1 == deals
    ensures r.0.DeletedDeal? ==> privileged
    ensures r.0.DeletedDeal? ==> forall j :: 0 <= j < |r.1| ==> r.1[j] in deals && r.1[j].id != r.0.id
    ensures r.0.DeletedDeal? ==> forall j :: 0 <= j < |deals| && deals[j].id != r.0.id ==> deals[j] in r.1
  {
    if !privileged then (Forbidden, deals)
    else
      match arg
      case None => (DeleteUsage, deals)
      case Some(name) =>
        match FindLatest(deals, guild, name)
        case None => (DeleteNotFound, deals)
        case Some(i) =>
          WhereMembers(deals, OtherId(deals[i].id));
          (DeletedDeal(deals[i].id), Where(deals, OtherId(deals[i].id)))
  }

  /** With distinct ids, `#delete` removes exactly the latest deal of the customer and keeps the rest in order. */
  lemma DeleteRemovesLatest(deals: seq<Deal>, guild: int, name: string, i: nat)
    requires DistinctIds(deals)
    requires FindLatest(deals, guild, name) == Some(i)
    ensures DeleteStep(deals, true, guild, Some(name)) == (DeletedDeal(deals[i].id), deals[..i] + deals[i + 1..])
  {
    WhereDropsOne(deals, OtherId(deals[i].id), i);
  }

  function OtherGuild(guild: int): Deal -> bool {
    (d: Deal) => d.guildId != guild
  }

  /** The effect of `#clearleaderboard`: with the role, every deal of the guild goes; without it nothing does. */
  function ClearStep(deals: seq<Deal>, privileged: bool, guild: int): (r: (bool, seq<Deal>))
    ensures r.0 == privileged
    ensures !r.0 ==> r.1 == deals
    ensures |r.1| <= |deals|
  {
    if !privileged then (false, deals)
    else (true, Where(deals, OtherGuild(guild)))
  }

  /** After clearing, the guild has no deals and every other guild keeps exactly its own. */
  lemma ClearOnlyThisGuild(deals: seq<Deal>, guild: int, other: int)
    requires other != guild
    ensures GuildDeals(ClearStep(deals, true, guild).1, guild) == []
    ensures GuildDeals(ClearStep(deals, true, guild).1, other) == GuildDeals(deals, other)
  {
    var kept := Where(deals, OtherGuild(guild));
    WhereWhere(deals, OtherGuild(guild), InGuild(other), InGuild(other));
    WhereMembers(deals, OtherGuild(guild));
    WhereNone(kept, InGuild(guild));
  }

  // ---------------------------------------------------------------------
  // Periods and leaderboards
  // ---------------------------------------------------------------------

  /** What `_filter_deals_period` keeps of a guild's deals. */
  function InWindow(startUtc: Calendar.Instant, endUtc: Calendar.Instant, includeCanceled: bool, parse: string -> Option<Calendar.Instant>): Deal -> bool {
    (d: Deal) =>
      && d.status != Deleted
      && (includeCanceled || d.status != Canceled)
      && d.createdAt != []
      && parse(d.createdAt).Some?
      && startUtc <= parse(d.createdAt).value < endUtc
  }

  /**
   * `_filter_deals_period`: the guild's deals, in ledger order, that are not
   * deleted, not canceled unless asked for, and whose timestamp parses and
   * lies in `[startUtc, endUtc)`.
   */
  method FilterPeriod(deals: seq<Deal>, guild: int, startUtc: Calendar.Instant, endUtc: Calendar.Instant, includeCanceled: bool,
                      parse: string -> Option<Calendar.Instant>)
    returns (result: seq<Deal>)
    ensures result == Where(GuildDeals(deals, guild), InWindow(startUtc, endUtc, includeCanceled, parse))
    ensures forall i :: 0 <= i < |result| ==>
      result[i] in deals && result[i].guildId == guild && result[i].status != Deleted
      && (includeCanceled || result[i].status != Canceled)
      && parse(result[i].createdAt).Some? && startUtc <= parse(result[i].createdAt).value < endUtc
    ensures forall i :: (0 <= i < |deals| && deals[i].guildId == guild &&
      InWindow(startUtc, endUtc, includeCanceled, parse)(deals[i])) ==> deals[i] in result
  {
    var keep := InWindow(startUtc, endUtc, includeCanceled, parse);
    var gd := GuildDeals(deals, guild);
    result := [];
    for i := 0 to |gd|
      invariant result == Where(gd[..i], keep)
    {
      var d := gd[i];
      assert gd[..i + 1] == gd[..i] + [d];
      WhereSnoc(gd[..i], d, keep);
      if d.status == Deleted {
        continue;
      }
      if !includeCanceled && d.status == Canceled {
        continue;
      }
      if d.createdAt == [] {
        continue;
      }
      var created := parse(d.createdAt);
      if created.None? {
        continue;
      }
      if startUtc <= created.value < endUtc {
        result := result + [d];
      }
    }
    assert gd[..|gd|] == gd;
    WindowMembers(deals, guild, keep);
  }

  /** The deals kept from a guild's list are the guild's deals that pass the test, and all of them. */
  lemma WindowMembers(deals: seq<Deal>, guild: int, keep: Deal -> bool)
    ensures var r := Where(GuildDeals(deals, guild), keep);
      && (forall i :: 0 <= i < |r| ==> r[i] in deals && r[i].guildId == guild && keep(r[i]))
      && (forall i :: 0 <= i < |deals| && deals[i].guildId == guild && keep(deals[i]) ==> deals[i] in r)
  {
    var gd := GuildDeals(deals, guild);
    var r := Where(gd, keep);
    WhereMembers(gd, keep);
    forall i | 0 <= i < |deals| && deals[i].guildId == guild && keep(deals[i]) ensures deals[i] in r {
      var k :| 0 <= k < |gd| && gd[k] == deals[i];
    }
  }

  /** A deal's kW for the leaderboards: missing counts as 0. */
  function KwOrZero(d: Deal): real {
    d.kw.GetOr(0.0)
  }

  function CloserKey(d: Deal): Option<int> {
    Some(d.closerId)
  }

  function CloserName(d: Deal): string {
    d.closerName
  }

  /** Setters are grouped by their stripped, lower-cased name; a blank name has no group. */
  function SetterKey(d: Deal): Option<string> {
    var name := Strip(d.setterName.GetOr(""));
    if name == [] then None else Some(Lower(name))
  }

  function SetterName(d: Deal): string {
    Strip(d.setterName.GetOr(""))
  }

  /** The leaderboard order: more deals first, then more kW. */
  predicate RanksAbove<K>(a: Row<K>, b: Row<K>) {
    a.deals > b.deals || (a.deals == b.deals && a.kw >= b.kw)
  }

  lemma RanksAbovePreorder<K>(rows: seq<Row<K>>)
    ensures Sorting.TotalPreorderOn(rows, RanksAbove)
  {
  }

  /** Every deal has a closer, so every deal counts on the closer board. */
  lemma {:induction false} EveryDealHasCloser(deals: seq<Deal>)
    ensures Grouped(deals, CloserKey) == |deals|
  {
    if deals != [] {
      EveryDealHasCloser(deals[..|deals| - 1]);
    }
  }

  /**
   * `_aggregate_by_closer`: one row per closer id, holding the name on the
   * closer's first deal, the number of their deals and the kW total; the
   * counts add up to the number of deals; rows ordered by deals, then kW,
   * descending.
   */
  method AggregateByCloser(deals: seq<Deal>) returns (out: seq<Row<int>>)
    ensures DistinctKeys(out)
    ensures forall k :: Lookup(out, k) == Expected(deals, CloserKey, CloserName, KwOrZero, k)
    ensures TotalDeals(out) == |deals|
    ensures Sorting.Sorted(out, RanksAbove)
  {
    var stats := Group(deals, CloserKey, CloserName, KwOrZero);
    EveryDealHasCloser(deals);
    SortKeepsRows(stats, RanksAbove);
    RanksAbovePreorder(stats);
    Sorting.SortSorted(stats, RanksAbove);
    out := Sorting.Sort(stats, RanksAbove);
  }

  /**
   * `_aggregate_by_setter`: one row per non-blank setter name, compared
   * without case or surrounding spaces, holding the stripped name on the
   * setter's first deal, the number of their deals and the kW total; the
   * counts add up to the number of deals with a setter; rows ordered by
   * deals, then kW, descending.
   */
  method AggregateBySetter(deals: seq<Deal>) returns (out: seq<Row<string>>)
    ensures DistinctKeys(out)
    ensures forall k :: Lookup(out, k) == Expected(deals, SetterKey, SetterName, KwOrZero, k)
    ensures TotalDeals(out) == Grouped(deals, SetterKey)
    ensures Sorting.Sorted(out, RanksAbove)
  {
    var stats := Group(deals, SetterKey, SetterName, KwOrZero);
    SortKeepsRows(stats, RanksAbove);
    RanksAbovePreorder(stats);
    Sorting.SortSorted(stats, RanksAbove);
    out := Sorting.Sort(stats, RanksAbove);
  }

  /** A setter that is missing or only whitespace is never on the setter board. */
  lemma BlankSetterSkipped(deals: seq<Deal>, k: string)
    requires forall i :: 0 <= i < |deals| ==> Strip(deals[i].setterName.GetOr("")) == []
    ensures Expected(deals, SetterKey, SetterName, KwOrZero, k) == None
  {
    assert forall i :: 0 <= i < |deals| ==> SetterKey(deals[i]) == None;
    OutsideGroupCountsNothing(deals, SetterKey, k);
  }

  /** The period a kind names, compared lower-cased; an unknown kind means a day. */
  function PeriodKind(kind: string): Calendar.Kind {
    var k := Lower(kind);
    if k == "day" || k == "today" then Calendar.Day
    else if k == "week" || k == "thisweek" then Calendar.Week
    else if k == "month" || k == "thismonth" then Calendar.Month
    else Calendar.Day
  }

  function PeriodTitle(kind: string): string {
    var k := Lower(kind);
    if k == "day" || k == "today" then "Daily Leaderboard"
    else if k == "week" || k == "thisweek" then "Weekly Leaderboard"
    else if k == "month" || k == "thismonth" then "Monthly Leaderboard"
    else "Leaderboard"
  }

  /**
   * `_period_bounds`: the local period around date `d` as a half-open range
   * of local midnights, each turned into UTC by `toUtc`.
   */
  function PeriodBounds(kind: string, d: Calendar.Date, toUtc: Calendar.Date -> Calendar.Instant): (w: Calendar.Window)
    requires Calendar.Valid(d)
    ensures Calendar.Valid(w.startLocal) && Calendar.Valid(w.endLocal)
    ensures Calendar.InPeriod(d, Calendar.Period(w.startLocal, w.endLocal))
    ensures w.startUtc == toUtc(w.startLocal) && w.endUtc == toUtc(w.endLocal)
  {
    var p := Calendar.Bounds(PeriodKind(kind), d);
    Calendar.Window(toUtc(p.start), toUtc(p.end), p.start, p.end, PeriodTitle(kind))
  }

  /**
   * Day and today give `[d, d+1)`; week and thisweek the Monday on or before
   * `d` and seven days on; month and thismonth the first of the month to the
   * first of the next, December rolling into January; any other kind the
   * same range as a day.
   */
  lemma PeriodBoundsByKind(kind: string, d: Calendar.Date, toUtc: Calendar.Date -> Calendar.Instant)
    requires Calendar.Valid(d)
    ensures var w := PeriodBounds(kind, d, toUtc); var k := Lower(kind);
      && (k == "day" || k == "today" ==>
            w.startLocal == d && Calendar.Ordinal(w.endLocal) == Calendar.Ordinal(d) + 1)
      && (k == "week" || k == "thisweek" ==>
            && Calendar.Weekday(w.startLocal) == 0
            && Calendar.Ordinal(d) - 6 <= Calendar.Ordinal(w.startLocal) <= Calendar.Ordinal(d)
            && Calendar.Ordinal(w.endLocal) == Calendar.Ordinal(w.startLocal) + 7)
      && (k == "month" || k == "thismonth" ==>
            && w.startLocal == Calendar.Date(d.year, d.month, 1)
            && w.endLocal == (if d.month == 12 then Calendar.Date(d.year + 1, 1, 1) else Calendar.Date(d.year, d.month + 1, 1)))
      && (k !in {"day", "today", "week", "thisweek", "month", "thismonth"} ==>
            w.startLocal == PeriodBounds("day", d, toUtc).startLocal
            && w.endLocal == PeriodBounds("day", d, toUtc).endLocal)
  {
    var w := PeriodBounds(kind, d, toUtc);
    var p := Calendar.Bounds(PeriodKind(kind), d);
    assert w.startLocal == p.start && w.endLocal == p.end;
    match PeriodKind(kind) {
      case Day =>
        Calendar.DayBounds(d);
        assert PeriodKind("day") == Calendar.Day by { assert Lower("day") == "day"; }
      case Week => Calendar.WeekBounds(d);
      case Month => Calendar.MonthBounds(d);
    }
  }

  /** With a conversion to UTC that keeps the order of days, the UTC window is not empty. */
  lemma PeriodBoundsOrdered(kind: string, d: Calendar.Date, toUtc: Calendar.Date -> Calendar.Instant)
    requires Calendar.Valid(d)
    requires forall a, b :: Calendar.Valid(a) && Calendar.Valid(b) && Calendar.Ordinal(a) < Calendar.Ordinal(b) ==> toUtc(a) < toUtc(b)
    ensures PeriodBounds(kind, d, toUtc).startUtc < PeriodBounds(kind, d, toUtc).endUtc
  {
  }

  // ---------------------------------------------------------------------
  // !mystats
  // ---------------------------------------------------------------------

  datatype Stats = Stats(deals: nat, kw: real)

  function ClosedBy(user: int): Deal -> bool {
    (d: Deal) => d.closerId == user
  }

  function NotCanceled(): Deal -> bool {
    (d: Deal) => d.status != Canceled
  }

  function MineNotCanceled(user: int): Deal -> bool {
    (d: Deal) => d.closerId == user && d.status != Canceled
  }

  /** `mystats_cmd`: the guild's deals the user closed that are not canceled, counted, and their kW added up. */
  function MyStats(deals: seq<Deal>, guild: int, user: int): (r: Stats)
    ensures r.deals <= |GuildDeals(deals, guild)|
  {
    var mine := Where(GuildDeals(deals, guild), MineNotCanceled(user));
    Stats(|mine|, SumOf(mine, KwOrZero))
  }

  /**
   * `!mystats` shows the row the closer board would give the user over the
   * guild's deals that are not canceled (deleted deals included).
   */
  lemma MyStatsIsCloserRow(deals: seq<Deal>, guild: int, user: int)
    ensures var active := Where(GuildDeals(deals, guild), NotCanceled());
      MyStats(deals, guild, user) == Stats(CountIn(active, CloserKey, user), KwIn(active, CloserKey, KwOrZero, user))
  {
    var gd := GuildDeals(deals, guild);
    WhereWhere(gd, NotCanceled(), ClosedBy(user), MineNotCanceled(user));
    CountInIsWhere(Where(gd, NotCanceled()), CloserKey, KwOrZero, user, ClosedBy(user));
  }

  // ---------------------------------------------------------------------
  // The ledger
  // ---------------------------------------------------------------------

  /** `DEALS_DATA`: the next id to hand out and the deals of every guild, in the order they were logged. */
  class Ledger {
    var nextId: int
    var deals: seq<Deal>

    ghost predicate Valid()
      reads this
    {
      nextId >= 1 && WellNumbered(deals, nextId)
    }

    /** A fresh ledger: no deals, and ids start at 1. */
    constructor ()
      ensures Valid() && nextId == 1 && deals == []
    {
      nextId := 1;
      deals := [];
    }

    /**
     * `_add_deal`: the new deal takes the current next id, the next id moves
     * on by one, and the deal goes at the end with status closed; the deals
     * already there are left as they were.
     */
    method AddDeal(guildId: int, setterId: Option<int>, setterName: Option<string>, closerId: int,
                   closerName: string, customerName: string, kw: real, now: string)
      returns (deal: Deal)
      requires Valid()
      modifies this
      ensures Valid()
      ensures deal == NewDeal(old(nextId), guildId, setterId, setterName, closerId, closerName, customerName, kw, now)
      ensures nextId == old(nextId) + 1
      ensures deals == old(deals) + [deal]
    {
      var dealId := nextId;
      nextId := dealId + 1;
      deal := NewDeal(dealId, guildId, setterId, setterName, closerId, closerName, customerName, kw, now);
      AppendKeepsNumbering(deals, dealId, deal);
      deals := deals + [deal];
    }

    /** `#sold`: parse the message and, when it is valid, add the deal with the author as closer. */
    method Sold(content: string, mention: Option<Mention>, parseFloat: string -> Option<real>, guild: int,
                closerId: int, closerName: string, now: string)
      returns (deal: Option<Deal>)
      requires Valid()
      modifies this
      ensures Valid()
      ensures SoldRequest(Split(content), mention, parseFloat).None? ==>
        deal.None? && deals == old(deals) && nextId == old(nextId)
      ensures SoldRequest(Split(content), mention, parseFloat).Some? ==>
        var a := SoldRequest(Split(content), mention, parseFloat).value;
        && deal == Some(NewDeal(old(nextId), guild, a.setterId, a.setterName, closerId, closerName, a.customer, a.kw, now))
        && deals == old(deals) + [deal.value]
        && nextId == old(nextId) + 1
    {
      var parts := Split(content);
      var args := ParseSold(parts, mention, parseFloat);
      if args.None? {
        return None;
      }
      var a := args.value;
      var d := AddDeal(guild, a.setterId, a.setterName, closerId, closerName, a.customer, a.kw, now);
      deal := Some(d);
    }

    /** `#cancel Customer Name` */
    method Cancel(guild: int, content: string, now: string) returns (outcome: CancelOutcome)
      requires Valid()
      modifies this
      ensures Valid()
      ensures nextId == old(nextId)
      ensures (outcome, deals) == CancelStep(old(deals), guild, CommandArgument(content), now)
    {
      var name := CommandArgument(content);
      if name.None? {
        return CancelUsage;
      }
      var found := FindLatest(deals, guild, name.value);
      if found.None? {
        return CancelNotFound;
      }
      var i := found.value;
      if deals[i].status == Canceled {
        return AlreadyCanceled;
      }
      outcome := CanceledDeal(deals[i].id);
      MarkAt(i, now);
    }

    /** Sets the status and cancel time of the deal at position `i`. */
    method MarkAt(i: nat, now: string)
      requires Valid() && i < |deals|
      modifies this
      ensures Valid()
      ensures nextId == old(nextId)
      ensures deals == old(deals)[i := MarkCanceled(old(deals)[i], now)]
    {
      MarkKeepsNumbering(deals, nextId, i, now);
      deals := deals[i := MarkCanceled(deals[i], now)];
    }

    /** Reassigns the deal list to the deals that pass `keep`, in order. */
    method KeepOnly(keep: Deal -> bool)
      requires Valid()
      modifies this
      ensures Valid()
      ensures nextId == old(nextId)
      ensures deals == Where(old(deals), keep)
    {
      FilterKeepsNumbering(deals, nextId, keep);
      deals := Where(deals, keep);
    }

    /** `#delete Customer Name`, for admins and managers. */
    method Delete(privileged: bool, guild: int, content: string) returns (outcome: DeleteOutcome)
      requires Valid()
      modifies this
      ensures Valid()
      ensures nextId == old(nextId)
      ensures (outcome, deals) == DeleteStep(old(deals), privileged, guild, CommandArgument(content))
    {
      if !privileged {
        return Forbidden;
      }
      var name := CommandArgument(content);
      if name.None? {
        return DeleteUsage;
      }
      var found := FindLatest(deals, guild, name.value);
      if found.None? {
        return DeleteNotFound;
      }
      var id := deals[found.value].id;
      outcome := DeletedDeal(id);
      KeepOnly(OtherId(id));
    }

    /** `#clearleaderboard`, for admins and managers: the next id is kept. */
    method ClearLeaderboard(privileged: bool, guild: int) returns (cleared: bool)
      requires Valid()
      modifies this
      ensures Valid()
      ensures nextId == old(nextId)
      ensures (cleared, deals) == ClearStep(old(deals), privileged, guild)
    {
      if !privileged {
        return false;
      }
      KeepOnly(OtherGuild(guild));
      cleared := true;
    }
  }
}
