/**
 * The original bot: appointments live in one dictionary keyed by
 * `lower(name) + "_" + epoch-seconds`, in insertion order. `#set Name`
 * books an appointment, `#sold Name [kW]` marks the first appointment of
 * that name sold, `#canceled Name` marks it canceled with a loss reason
 * asked for in a direct message, and `!mystats` counts a setter's
 * appointments, closes and losses.
 *
 * The chat platform, the JSON file and the clock are parameters: the
 * caller passes the author's display name, whether the author is a bot,
 * the current time as an ISO string and as whole epoch seconds, and the
 * two direct-message replies of the `#canceled` exchange.
 */
module SolarDealTracker {
  import opened Wrappers
  import opened Text
  import opened Lists
  import opened Grouping

  datatype Status = Set | Sold | Canceled

  /** One appointment record. */
  datatype Deal = Deal(
    name: string,
    setter: string,
    closer: Option<string>,
    kw: Option<real>,
    status: Status,
    lossReason: Option<string>,
    createdAt: string)

  /** One key of the `deals` dictionary with its record. */
  datatype Entry = Entry(key: string, deal: Deal)

  // ---------------------------------------------------------------------
  // The dictionary
  // ---------------------------------------------------------------------

  /** A dictionary holds each key once. */
  predicate KeysDistinct(entries: seq<Entry>) {
    forall i, j :: 0 <= i < j < |entries| ==> entries[i].key != entries[j].key
  }

  function HasKey(k: string): Entry -> bool {
    (x: Entry) => x.key == k
  }

  /** `deals.get(k)` */
  function Get(entries: seq<Entry>, k: string): (r: Option<Deal>)
    ensures r.None? <==> forall i :: 0 <= i < |entries| ==> entries[i].key != k
    ensures r.Some? ==> exists i :: 0 <= i < |entries| && entries[i] == Entry(k, r.value)
  {
    match FirstWhere(entries, HasKey(k))
    case None => None
    case Some(i) => Some(entries[i].deal)
  }

  /** `deals[k] = d`: a key already present keeps its place and takes the new record; a new key goes last. */
  function Put(entries: seq<Entry>, k: string, d: Deal): (r: seq<Entry>)
    ensures |entries| <= |r| <= |entries| + 1
    ensures Entry(k, d) in r
  {
    match FirstWhere(entries, HasKey(k))
    case None => entries + [Entry(k, d)]
    case Some(i) =>
      var r := entries[i := Entry(k, d)];
      assert r[i] == Entry(k, d);
      r
  }

  /**
   * After `deals[k] = d` the key maps to `d`, every other key to what it
   * mapped to before, keys already present keep their places, and the
   * dictionary grows only when `k` is new.
   */
  lemma PutEffect(entries: seq<Entry>, k: string, d: Deal)
    requires KeysDistinct(entries)
    ensures KeysDistinct(Put(entries, k, d))
    ensures Get(Put(entries, k, d), k) == Some(d)
    ensures forall k' :: k' != k ==> Get(Put(entries, k, d), k') == Get(entries, k')
    ensures forall i :: 0 <= i < |entries| ==> Put(entries, k, d)[i].key == entries[i].key
    ensures |Put(entries, k, d)| == if Get(entries, k).Some? then |entries| else |entries| + 1
  {
    var after := Put(entries, k, d);
    var pos := FirstWhere(entries, HasKey(k));
    assert forall i :: 0 <= i < |entries| ==> after[i].key == entries[i].key;
    assert after[if pos.Some? then pos.value else |entries|] == Entry(k, d);
    match FirstWhere(after, HasKey(k)) {
      case None =>
      case Some(m) =>
        if pos.Some? {
          assert m == pos.value;
        } else {
          assert m == |entries|;
        }
    }
    forall k' | k' != k ensures Get(after, k') == Get(entries, k') {
      PutOther(entries, k, d, k');
    }
  }

  /** Storing under `k` leaves the lookup of any other key as it was. */
  lemma PutOther(entries: seq<Entry>, k: string, d: Deal, other: string)
    requires other != k
    ensures Get(Put(entries, k, d), other) == Get(entries, other)
  {
    var p := HasKey(other);
    var after := Put(entries, k, d);
    match FirstWhere(entries, HasKey(k)) {
      case None =>
        assert after == entries + [Entry(k, d)];
        PutElsewhere(entries, after, p);
      case Some(i) =>
        assert after == entries[i := Entry(k, d)];
        PutElsewhere(entries, after, p);
        assert forall j :: 0 <= j < |entries| && p(entries[j]) ==> after[j] == entries[j];
    }
  }

  /** Two lists that agree on which entries pass `p`, the longer adding only failing ones, find the same first entry. */
  lemma PutElsewhere(entries: seq<Entry>, after: seq<Entry>, p: Entry -> bool)
    requires |entries| <= |after|
    requires forall i :: 0 <= i < |entries| ==> p(entries[i]) == p(after[i])
    requires forall i :: |entries| <= i < |after| ==> !p(after[i])
    ensures FirstWhere(after, p) == FirstWhere(entries, p)
  {
    match FirstWhere(entries, p) {
      case None =>
        assert forall i :: 0 <= i < |after| ==> !p(after[i]);
      case Some(m) =>
        assert p(after[m]);
        assert forall j :: 0 <= j < m ==> !p(after[j]);
    }
  }

  /** The records of the dictionary in insertion order: `deals.values()`. */
  function Values(entries: seq<Entry>): (r: seq<Deal>)
    ensures |r| == |entries| && forall i :: 0 <= i < |entries| ==> r[i] == entries[i].deal
  {
    seq(|entries|, i requires 0 <= i < |entries| => entries[i].deal)
  }

  /** Two dictionaries with the same keys in the same places. */
  predicate SameKeys(a: seq<Entry>, b: seq<Entry>) {
    |a| == |b| && forall i :: 0 <= i < |a| ==> a[i].key == b[i].key
  }

  // ---------------------------------------------------------------------
  // Commands
  // ---------------------------------------------------------------------

  /** The key `#set` files an appointment under: the lower-cased name, an underscore and the epoch seconds. */
  function AppointmentKey(name: string, epoch: int): string {
    Lower(name) + "_" + IntToString(epoch)
  }

  function NewAppointment(name: string, setter: string, now: string): Deal {
    Deal(name, setter, None, None, Set, None, now)
  }

  /** A record whose name equals `name` ignoring case. */
  function NameIs(name: string): Entry -> bool {
    (x: Entry) => Lower(x.deal.name) == Lower(name)
  }

  function Sell(d: Deal, closer: string, kw: Option<real>): Deal {
    d.(status := Sold, closer := Some(closer), kw := kw)
  }

  /** The effect of `#sold`: the first record of that name, in insertion order, marked sold; nothing when there is none. */
  function SoldStep(entries: seq<Entry>, name: string, closer: string, kw: Option<real>): (r: seq<Entry>)
    ensures SameKeys(r, entries)
    ensures forall i :: 0 <= i < |r| && r[i] != entries[i] ==>
      NameIs(name)(entries[i]) && r[i].deal.status == Sold && r[i].deal.closer == Some(closer) && r[i].deal.kw == kw
  {
    match FirstWhere(entries, NameIs(name))
    case None => entries
    case Some(i) => entries[i := Entry(entries[i].key, Sell(entries[i].deal, closer, kw))]
  }

  function Cancel(d: Deal, reason: string): Deal {
    d.(status := Canceled, lossReason := Some(reason))
  }

  /** The effect of `#canceled`: the first record of that name marked canceled for `reason`; nothing when there is none. */
  function CanceledStep(entries: seq<Entry>, name: string, reason: string): (r: seq<Entry>)
    ensures SameKeys(r, entries)
    ensures forall i :: 0 <= i < |r| && r[i] != entries[i] ==>
      NameIs(name)(entries[i]) && r[i].deal.status == Canceled && r[i].deal.lossReason == Some(reason)
  {
    match FirstWhere(entries, NameIs(name))
    case None => entries
    case Some(i) => entries[i := Entry(entries[i].key, Cancel(entries[i].deal, reason))]
  }

  /**
   * `#sold` touches at most one record, the first whose name matches, and
   * whatever its status was; the keys and every other record stay.
   */
  lemma SoldStepEffect(entries: seq<Entry>, name: string, closer: string, kw: Option<real>)
    ensures SameKeys(SoldStep(entries, name, closer, kw), entries)
    ensures forall i :: 0 <= i < |entries| ==>
      SoldStep(entries, name, closer, kw)[i].deal ==
        if FirstWhere(entries, NameIs(name)) == Some(i) then Sell(entries[i].deal, closer, kw) else entries[i].deal
    ensures (forall i :: 0 <= i < |entries| ==> !NameIs(name)(entries[i])) ==> SoldStep(entries, name, closer, kw) == entries
  {
    var after := SoldStep(entries, name, closer, kw);
    match FirstWhere(entries, NameIs(name)) {
      case None =>
      case Some(k) =>
        assert after == entries[k := Entry(entries[k].key, Sell(entries[k].deal, closer, kw))];
        assert NameIs(name)(entries[k]);
    }
  }

  /** Selling keeps the name, so a repeated `#sold` finds the same record and changes nothing more. */
  lemma SoldTwice(entries: seq<Entry>, name: string, closer: string, kw: Option<real>)
    ensures SoldStep(SoldStep(entries, name, closer, kw), name, closer, kw) == SoldStep(entries, name, closer, kw)
  {
    var once := SoldStep(entries, name, closer, kw);
    match FirstWhere(entries, NameIs(name)) {
      case None =>
      case Some(i) =>
        assert forall j :: 0 <= j < |once| ==> NameIs(name)(once[j]) == NameIs(name)(entries[j]);
        assert FirstWhere(once, NameIs(name)) == Some(i);
    }
  }

  /** `#canceled` touches at most one record, the first whose name matches; the keys and every other record stay. */
  lemma CanceledStepEffect(entries: seq<Entry>, name: string, reason: string)
    ensures SameKeys(CanceledStep(entries, name, reason), entries)
    ensures forall i :: 0 <= i < |entries| ==>
      CanceledStep(entries, name, reason)[i].deal ==
        if FirstWhere(entries, NameIs(name)) == Some(i) then Cancel(entries[i].deal, reason) else entries[i].deal
  {
    var after := CanceledStep(entries, name, reason);
    match FirstWhere(entries, NameIs(name)) {
      case None =>
      case Some(k) =>
        assert after == entries[k := Entry(entries[k].key, Cancel(entries[k].deal, reason))];
    }
  }

  /** `LOSS_REASONS` */
  const LossReasons: map<string, string> :=
    map["1" := "ghosted", "2" := "one_legger", "3" := "needs_thought", "4" := "disqualified", "5" := "other"]

  /**
   * The loss reason of the `#canceled` exchange: a first reply of 1 to 4
   * names one of the fixed reasons; any other reply, 5 included, means
   * "other", and then the stripped follow-up reply is the reason.
   */
  function LossReason(firstReply: string, followUp: string): (r: string)
    ensures Strip(firstReply) in {"1", "2", "3", "4"} ==> r == LossReasons[Strip(firstReply)] && r != "other"
    ensures Strip(firstReply) !in {"1", "2", "3", "4"} ==> r == Strip(followUp)
  {
    var code := Strip(firstReply);
    LossCodes(code);
    var reason := if code in LossReasons then LossReasons[code] else "other";
    if reason == "other" then Strip(followUp) else reason
  }

  /** Codes 1 to 4 name a reason other than "other"; 5 and every unknown reply fall back to "other". */
  lemma LossCodes(code: string)
    ensures code in {"1", "2", "3", "4"} ==> code in LossReasons && LossReasons[code] != "other"
    ensures code !in {"1", "2", "3", "4"} ==> code !in LossReasons || LossReasons[code] == "other"
  {
    assert "ghosted" != "other" && "one_legger" != "other" && "needs_thought" != "other" && "disqualified" != "other" by {
      assert "ghosted"[0] != "other"[0];
      assert "one_legger"[1] != "other"[1];
      assert "needs_thought"[0] != "other"[0];
      assert "disqualified"[0] != "other"[0];
    }
  }

  // ---------------------------------------------------------------------
  // Message parsing
  // ---------------------------------------------------------------------

  /** `s.split(".", 1)[0]`: the part of `s` before its first dot. */
  function BeforeDot(s: string): string {
    if s == [] || s[0] == '.' then [] else [s[0]] + BeforeDot(s[1..])
  }

  /** The part of `s` after its first dot, empty when there is none. */
  function AfterDot(s: string): string {
    if s == [] then [] else if s[0] == '.' then s[1..] else AfterDot(s[1..])
  }

  lemma {:induction false} RemoveFirstDot(s: string)
    ensures RemoveFirst(s, '.') == BeforeDot(s) + AfterDot(s)
  {
    if s != [] && s[0] != '.' {
      var tail := s[1..];
      RemoveFirstDot(tail);
      assert RemoveFirst(s, '.') == [s[0]] + RemoveFirst(tail, '.');
      assert BeforeDot(s) == [s[0]] + BeforeDot(tail);
      assert AfterDot(s) == AfterDot(tail);
    }
  }

  function Pow10(n: nat): (r: nat)
    ensures r >= 1
  {
    if n == 0 then 1 else 10 * Pow10(n - 1)
  }

  /** Whether `token.replace(".", "", 1).isdigit()` holds. */
  predicate IsKwToken(token: string) {
    RemoveFirst(token, '.') != [] && AllDigits(RemoveFirst(token, '.'))
  }

  /**
   * The kW of `#sold`: `float(token)` when the token passes the digit test,
   * read as an exact decimal; `None` otherwise.
   */
  function KwToken(token: string): (r: Option<real>)
    ensures r.Some? <==> IsKwToken(token)
    ensures r.Some? ==> r.value >= 0.0
  {
    if IsKwToken(token) then
      RemoveFirstDot(token);
      var whole, fraction := BeforeDot(token), AfterDot(token);
      assert AllDigits(whole) && AllDigits(fraction) by {
        assert forall i :: 0 <= i < |whole| ==> whole[i] == RemoveFirst(token, '.')[i];
        assert forall i :: 0 <= i < |fraction| ==> fraction[i] == RemoveFirst(token, '.')[|whole| + i];
      }
      Some(DigitsValue(whole) as real + DigitsValue(fraction) as real / Pow10(|fraction|) as real)
    else None
  }

  lemma {:induction false} NoDotInDigits(s: string)
    requires AllDigits(s)
    ensures RemoveFirst(s, '.') == s && BeforeDot(s) == s && AfterDot(s) == []
  {
    if s != [] {
      NoDotInDigits(s[1..]);
      assert s == [s[0]] + s[1..];
    }
  }

  /** A whole number written out is accepted as that many kW. */
  lemma KwTokenOfNat(n: nat)
    ensures KwToken(NatToString(n)) == Some(n as real)
  {
    NoDotInDigits(NatToString(n));
    DigitsRoundTrip(n);
  }

  /** A token with two dots is refused: only the first dot is removed before the digit test. */
  lemma {:induction false} TwoDotsRefused(token: string, i: nat, j: nat)
    requires i < j < |token| && token[i] == '.' && token[j] == '.'
    ensures KwToken(token) == None
  {
    if token[0] == '.' {
      assert RemoveFirst(token, '.')[j - 1] == '.';
    } else {
      TwoDotsRefused(token[1..], i - 1, j - 1);
      var rest := RemoveFirst(token[1..], '.');
      assert RemoveFirst(token, '.') == [token[0]] + rest;
      var k :| 0 <= k < |rest| && !IsDigit(rest[k]);
      assert RemoveFirst(token, '.')[k + 1] == rest[k];
    }
  }

  /** What `on_message` makes of a message. */
  datatype Command =
    | SetCommand(name: string)
    | SoldCommand(name: string, kw: Option<real>)
    | CanceledCommand(name: string)
    | NoCommand

  /**
   * A stripped message that starts, ignoring case, with a command word and
   * a space has at least two tokens, and a non-blank rest after the prefix.
   */
  lemma CommandWords(raw: string, prefix: string)
    requires |prefix| >= 1 && prefix[|prefix| - 1] == ' '
    requires StartsWith(Lower(Strip(raw)), prefix)
    ensures |Split(Strip(raw))| >= 2
    ensures Strip(Strip(raw)[|prefix|..]) != []
  {
    StripEnds(raw);
    PrefixedWords(Strip(raw), prefix);
  }

  lemma PrefixedWords(content: string, prefix: string)
    requires |prefix| >= 1 && prefix[|prefix| - 1] == ' '
    requires StartsWith(Lower(content), prefix)
    requires content != [] ==> !IsSpace(content[0]) && !IsSpace(content[|content| - 1])
    ensures |Split(content)| >= 2
    ensures Strip(content[|prefix|..]) != []
  {
    PrefixSpace(content, prefix);
    SplitAtLeastTwo(content, |prefix| - 1);
    RestNotBlank(content, |prefix|);
  }

  /** What follows a position before a message's non-space last character is not blank. */
  lemma RestNotBlank(content: string, n: nat)
    requires n < |content| && !IsSpace(content[|content| - 1])
    ensures Strip(content[n..]) != []
  {
    var rest := content[n..];
    assert rest[|rest| - 1] == content[|content| - 1];
    StripNotEmpty(rest, |rest| - 1);
  }

  /** A message that starts with a prefix ending in a space has a space there, and more after it. */
  lemma PrefixSpace(content: string, prefix: string)
    requires |prefix| >= 1 && prefix[|prefix| - 1] == ' '
    requires StartsWith(Lower(content), prefix)
    requires content != [] ==> !IsSpace(content[|content| - 1])
    ensures |prefix| < |content| && IsSpace(content[|prefix| - 1])
  {
    var p := |prefix| - 1;
    var low := Lower(content);
    assert low[..|prefix|][p] == low[p] == LowerChar(content[p]);
    LowerKeepsSpace(content[p]);
  }

  /** `#sold`'s arguments from the message's tokens: the name between the command and the last token, and the kW. */
  function SoldArguments(parts: seq<string>): Command
    requires |parts| >= 2
  {
    SoldCommand(Join(parts[1..|parts| - 1]), KwToken(parts[|parts| - 1]))
  }

  /**
   * `on_message`'s parsing: the message is stripped and matched, ignoring
   * case, against `#set `, `#sold ` and `#canceled `. `#set` and
   * `#canceled` take the stripped rest as the name; `#sold` takes the
   * tokens between the first and the last, joined by single spaces, as the
   * name and the last token as the kW.
   */
  function ParseMessage(raw: string): (c: Command)
    ensures c.SetCommand? ==> c.name != []
    ensures c.CanceledCommand? ==> c.name != []
  {
    var content := Strip(raw);
    var lower := Lower(content);
    if StartsWith(lower, "#set ") then
      CommandWords(raw, "#set ");
      SetCommand(Strip(content[5..]))
    else if StartsWith(lower, "#sold ") then
      CommandWords(raw, "#sold ");
      SoldArguments(Split(content))
    else if StartsWith(lower, "#canceled ") then
      CommandWords(raw, "#canceled ");
      CanceledCommand(Strip(content[10..]))
    else NoCommand
  }

  /** A message parsed as `#sold` has at least two tokens, and its arguments come from them. */
  lemma SoldParts(raw: string)
    requires ParseMessage(raw).SoldCommand?
    ensures |Split(Strip(raw))| >= 2 && ParseMessage(raw) == SoldArguments(Split(Strip(raw)))
  {
    var lower := Lower(Strip(raw));
    assert !StartsWith(lower, "#set ") && StartsWith(lower, "#sold ");
    CommandWords(raw, "#sold ");
  }

  /**
   * The name of `#sold` is exactly the tokens between the command and the
   * last token, which is dropped whether or not it is a kW figure.
   */
  lemma SoldNameTokens(raw: string)
    requires ParseMessage(raw).SoldCommand?
    ensures var parts := Split(Strip(raw));
      |parts| >= 2 && Split(ParseMessage(raw).name) == parts[1..|parts| - 1]
  {
    var parts := Split(Strip(raw));
    SoldParts(raw);
    var middle := parts[1..|parts| - 1];
    assert forall t :: t in middle ==> t in parts;
    SplitJoin(middle);
  }

  /** A message that begins with `#sold ` is a `#sold` command, not a `#set` one. */
  lemma SoldPrefix(rest: string)
    ensures StartsWith(Lower("#sold " + rest), "#sold ")
    ensures !StartsWith(Lower("#sold " + rest), "#set ")
  {
    var m := "#sold " + rest;
    var lower := Lower(m);
    forall i | 0 <= i < 6 ensures lower[i] == "#sold "[i] {
      assert m[i] == "#sold "[i];
    }
    assert lower[..6] == "#sold ";
    assert lower[2] == 'o';
  }

  /** `#sold ` and text that ends in a non-space character is already stripped. */
  lemma SoldStripped(rest: string)
    requires rest != [] && !IsSpace(rest[|rest| - 1])
    ensures Strip("#sold " + rest) == "#sold " + rest
  {
    var m := "#sold " + rest;
    assert m[|m| - 1] == rest[|rest| - 1];
    StripClean(m);
  }

  lemma SoldTokens(rest: string)
    ensures Split("#sold " + rest) == ["#sold"] + Split(rest)
  {
    assert "#sold " + rest == "#sold" + " " + rest;
    SplitCommand("#sold", rest);
  }

  /** A `#sold` message made of space-free words: its tokens are the command and the words. */
  lemma SoldMessage(words: seq<string>)
    requires |words| >= 1
    requires forall t :: t in words ==> t != [] && NoSpace(t)
    ensures Split(Strip("#sold " + Join(words))) == ["#sold"] + words
    ensures ParseMessage("#sold " + Join(words)) == SoldArguments(["#sold"] + words)
  {
    JoinEnds(words);
    SoldStripped(Join(words));
    SoldTokens(Join(words));
    SplitJoin(words);
    SoldPrefix(Join(words));
  }

  lemma SoldArgumentsOfWords(words: seq<string>)
    requires |words| >= 1
    ensures SoldArguments(["#sold"] + words) == SoldCommand(Join(words[..|words| - 1]), KwToken(words[|words| - 1]))
  {
    var parts := ["#sold"] + words;
    assert parts[1..|parts| - 1] == words[..|words| - 1];
  }

  /** A token that starts with a letter is not a kW figure. */
  lemma LetterNotKw(token: string)
    requires token != [] && token[0] != '.' && !IsDigit(token[0])
    ensures !IsKwToken(token)
  {
    assert RemoveFirst(token, '.')[0] == token[0];
  }

  /**
   * As written, `#sold` followed by a customer's words and no kW figure
   * drops the customer's last word and records no kW.
   */
  lemma SoldDropsLastWord(words: seq<string>)
    requires |words| >= 2
    requires forall t :: t in words ==> t != [] && NoSpace(t)
    requires !IsKwToken(words[|words| - 1])
    ensures ParseMessage("#sold " + Join(words)) == SoldCommand(Join(words[..|words| - 1]), None)
  {
    SoldMessage(words);
    SoldArgumentsOfWords(words);
  }

  /** The words of the example customer "Jane Doe". */
  lemma JaneDoe()
    ensures Join(["Jane", "Doe"]) == "Jane Doe" && Join(["Jane"]) == "Jane"
    ensures NoSpace("Jane") && NoSpace("Doe") && !IsKwToken("Doe")
  {
    var words := ["Jane", "Doe"];
    assert words[1..] == ["Doe"];
    assert Join(words[1..]) == "Doe";
    assert "Jane" + " " + "Doe" == "Jane Doe";
    LetterNotKw("Doe");
  }

  /** As written, `#sold Jane Doe` looks for a customer named "Jane". */
  lemma SoldWithoutKwAsWritten()
    ensures ParseMessage("#sold Jane Doe") == SoldCommand("Jane", None)
  {
    var words := ["Jane", "Doe"];
    JaneDoe();
    assert words[..1] == ["Jane"];
    assert "#sold " + Join(words) == "#sold Jane Doe";
    SoldDropsLastWord(words);
  }

  /** `#sold`'s arguments with the kW optional, as the command's own help text gives it: the last token is the kW only when it passes the digit test. */
  function SoldArgumentsIntended(parts: seq<string>): Command
    requires |parts| >= 2
  {
    var last := parts[|parts| - 1];
    if IsKwToken(last) then SoldCommand(Join(parts[1..|parts| - 1]), KwToken(last))
    else SoldCommand(Join(parts[1..]), None)
  }

  /** `on_message`'s parsing with `#sold`'s kW optional; the other commands as written. */
  function ParseMessageIntended(raw: string): (c: Command)
    ensures c.SetCommand? ==> c.name != []
    ensures c.CanceledCommand? ==> c.name != []
    ensures c.SoldCommand? <==> ParseMessage(raw).SoldCommand?
  {
    var c := ParseMessage(raw);
    if c.SoldCommand? then
      SoldParts(raw);
      SoldArgumentsIntended(Split(Strip(raw)))
    else c
  }

  lemma SoldArgumentsIntendedOfWords(words: seq<string>)
    requires |words| >= 1
    ensures SoldArgumentsIntended(["#sold"] + words) ==
      if IsKwToken(words[|words| - 1]) then SoldCommand(Join(words[..|words| - 1]), KwToken(words[|words| - 1]))
      else SoldCommand(Join(words), None)
  {
    var parts := ["#sold"] + words;
    assert parts[1..|parts| - 1] == words[..|words| - 1];
    assert parts[1..] == words;
  }

  /** With the kW optional, `#sold` followed by a customer's words names the whole customer and records no kW. */
  lemma SoldIntendedWithoutKw(words: seq<string>)
    requires |words| >= 1
    requires forall t :: t in words ==> t != [] && NoSpace(t)
    requires !IsKwToken(words[|words| - 1])
    ensures ParseMessageIntended("#sold " + Join(words)) == SoldCommand(Join(words), None)
  {
    SoldMessage(words);
    SoldArgumentsIntendedOfWords(words);
  }

  /** With the kW optional, `#sold Jane Doe` looks for the customer "Jane Doe". */
  lemma SoldWithoutKwIntended()
    ensures ParseMessageIntended("#sold Jane Doe") == SoldCommand("Jane Doe", None)
  {
    var words := ["Jane", "Doe"];
    JaneDoe();
    assert "#sold " + Join(words) == "#sold Jane Doe";
    SoldIntendedWithoutKw(words);
  }

  lemma SoldMessageSnoc(words: seq<string>, t: string)
    requires |words| >= 1
    ensures "#sold " + Join(words) + " " + t == "#sold " + Join(words + [t])
  {
    JoinSnoc(words, t);
  }

  /** With the kW optional, a customer's words and then a whole number record that many kW for the whole customer. */
  lemma SoldIntendedWithKw(words: seq<string>, n: nat)
    requires |words| >= 1
    requires forall t :: t in words ==> t != [] && NoSpace(t)
    ensures ParseMessageIntended("#sold " + Join(words) + " " + NatToString(n)) == SoldCommand(Join(words), Some(n as real))
  {
    var t := NatToString(n);
    var more := words + [t];
    assert forall x :: x in more ==> x != [] && NoSpace(x);
    SoldMessageSnoc(words, t);
    SoldMessage(more);
    SoldArgumentsIntendedOfWords(more);
    assert more[..|more| - 1] == words;
    NoDotInDigits(t);
    KwTokenOfNat(n);
  }

  /** What one message does to the dictionary, with `on_message` parsing the message as written. */
  function MessageStep(entries: seq<Entry>, fromBot: bool, raw: string, author: string, epoch: int, now: string,
                       firstReply: string, followUp: string): (r: seq<Entry>)
    ensures |entries| <= |r| <= |entries| + 1
    ensures |r| > |entries| ==> !fromBot && ParseMessage(raw).SetCommand?
  {
    if fromBot then entries else CommandStep(entries, ParseMessage(raw), author, epoch, now, firstReply, followUp)
  }

  /** What one message does to the dictionary once `#sold`'s kW is optional. */
  function MessageStepIntended(entries: seq<Entry>, fromBot: bool, raw: string, author: string, epoch: int, now: string,
                               firstReply: string, followUp: string): (r: seq<Entry>)
    ensures |entries| <= |r| <= |entries| + 1
    ensures |r| > |entries| ==> !fromBot && ParseMessageIntended(raw).SetCommand?
  {
    if fromBot then entries else CommandStep(entries, ParseMessageIntended(raw), author, epoch, now, firstReply, followUp)
  }

  /** What one parsed command does to the dictionary. */
  function CommandStep(entries: seq<Entry>, command: Command, author: string, epoch: int, now: string,
                       firstReply: string, followUp: string): (r: seq<Entry>)
    ensures |entries| <= |r| <= |entries| + 1
    ensures |r| > |entries| ==> command.SetCommand?
  {
    match command
    case SetCommand(name) => Put(entries, AppointmentKey(name, epoch), NewAppointment(name, author, now))
    case SoldCommand(name, kw) => SoldStep(entries, name, author, kw)
    case CanceledCommand(name) => CanceledStep(entries, name, LossReason(firstReply, followUp))
    case NoCommand => entries
  }

  /**
   * No command removes or moves a key: keys already present keep their
   * places, only `#set` adds one (at most one), and no command changes
   * nothing.
   */
  lemma CommandKeepsKeys(entries: seq<Entry>, command: Command, author: string, epoch: int, now: string,
                         firstReply: string, followUp: string)
    requires KeysDistinct(entries)
    ensures var after := CommandStep(entries, command, author, epoch, now, firstReply, followUp);
      && KeysDistinct(after)
      && |entries| <= |after| <= |entries| + 1
      && (forall i :: 0 <= i < |entries| ==> after[i].key == entries[i].key)
      && (|after| > |entries| ==> command.SetCommand?)
      && (command.NoCommand? ==> after == entries)
  {
    match command {
      case SetCommand(name) => PutEffect(entries, AppointmentKey(name, epoch), NewAppointment(name, author, now));
      case SoldCommand(name, kw) => SoldStepEffect(entries, name, author, kw);
      case CanceledCommand(name) => CanceledStepEffect(entries, name, LossReason(firstReply, followUp));
      case NoCommand =>
    }
  }

  /**
   * `on_message` never removes or moves a key: keys already present keep
   * their places, only `#set` adds one (at most one), and messages from
   * bots or without a command change nothing.
   */
  lemma MessageKeepsKeys(entries: seq<Entry>, fromBot: bool, raw: string, author: string, epoch: int, now: string,
                         firstReply: string, followUp: string)
    requires KeysDistinct(entries)
    ensures var after := MessageStep(entries, fromBot, raw, author, epoch, now, firstReply, followUp);
      && KeysDistinct(after)
      && |entries| <= |after| <= |entries| + 1
      && (forall i :: 0 <= i < |entries| ==> after[i].key == entries[i].key)
      && (|after| > |entries| ==> !fromBot && ParseMessage(raw).SetCommand?)
      && (fromBot || ParseMessage(raw).NoCommand? ==> after == entries)
  {
    if !fromBot {
      CommandKeepsKeys(entries, ParseMessage(raw), author, epoch, now, firstReply, followUp);
    }
  }

  /** The corrected handler keeps the keys in the same way. */
  lemma MessageIntendedKeepsKeys(entries: seq<Entry>, fromBot: bool, raw: string, author: string, epoch: int, now: string,
                                 firstReply: string, followUp: string)
    requires KeysDistinct(entries)
    ensures var after := MessageStepIntended(entries, fromBot, raw, author, epoch, now, firstReply, followUp);
      && KeysDistinct(after)
      && |entries| <= |after| <= |entries| + 1
      && (forall i :: 0 <= i < |entries| ==> after[i].key == entries[i].key)
      && (|after| > |entries| ==> !fromBot && ParseMessageIntended(raw).SetCommand?)
      && (fromBot || ParseMessageIntended(raw).NoCommand? ==> after == entries)
  {
    if !fromBot {
      CommandKeepsKeys(entries, ParseMessageIntended(raw), author, epoch, now, firstReply, followUp);
    }
  }

  /**
   * As written, `#sold Jane Doe` leaves a dictionary with no record named
   * "Jane" exactly as it was, even when it holds a record named "Jane Doe".
   */
  lemma JaneDoeNotSoldAsWritten(entries: seq<Entry>, author: string, epoch: int, now: string,
                                firstReply: string, followUp: string)
    requires forall i :: 0 <= i < |entries| ==> !NameIs("Jane")(entries[i])
    ensures MessageStep(entries, false, "#sold Jane Doe", author, epoch, now, firstReply, followUp) == entries
  {
    SoldWithoutKwAsWritten();
    SoldStepEffect(entries, "Jane", author, None);
  }

  /** With the kW optional, `#sold Jane Doe` marks the first record named "Jane Doe" sold, with no kW. */
  lemma JaneDoeSoldIntended(entries: seq<Entry>, k: nat, author: string, epoch: int, now: string,
                            firstReply: string, followUp: string)
    requires FirstWhere(entries, NameIs("Jane Doe")) == Some(k)
    ensures k < |entries|
    ensures var after := MessageStepIntended(entries, false, "#sold Jane Doe", author, epoch, now, firstReply, followUp);
      |after| == |entries| && after[k].deal == Sell(entries[k].deal, author, None)
  {
    SoldWithoutKwIntended();
    SoldStepEffect(entries, "Jane Doe", author, None);
  }

  // ---------------------------------------------------------------------
  // !mystats
  // ---------------------------------------------------------------------

  function SetByAuthor(author: string): Deal -> bool {
    (d: Deal) => d.setter == author
  }

  function SoldFor(author: string): Deal -> bool {
    (d: Deal) => d.setter == author && d.status == Sold
  }

  function LostFor(author: string): Deal -> bool {
    (d: Deal) => d.setter == author && d.status == Canceled
  }

  /** A loss of the author's is counted under its `loss_reason`, a missing one included. */
  function LossKey(author: string): Deal -> Option<Option<string>> {
    (d: Deal) => if d.setter == author && d.status == Canceled then Some(d.lossReason) else None
  }

  /** The loss table counts records only: its rows carry no name and no kW. */
  function NoName(d: Deal): string {
    []
  }

  function NoKw(d: Deal): real {
    0.0
  }

  /**
   * `mystats`: the author's appointments, how many of them were sold, and
   * a table from loss reason to the number of the author's canceled
   * appointments with that reason, in order of first appearance. Sold and
   * lost appointments together are never more than all appointments.
   */
  method MyStats(deals: seq<Deal>, author: string) returns (total: nat, closed: nat, losses: seq<Row<Option<string>>>)
    ensures total == |Where(deals, SetByAuthor(author))|
    ensures closed == |Where(deals, SoldFor(author))|
    ensures DistinctKeys(losses)
    ensures forall r :: Lookup(losses, r) == Expected(deals, LossKey(author), NoName, NoKw, r)
    ensures TotalDeals(losses) == |Where(deals, LostFor(author))|
    ensures closed + TotalDeals(losses) <= total
  {
    total, closed, losses := 0, 0, [];
    for i := 0 to |deals|
      invariant total == |Where(deals[..i], SetByAuthor(author))|
      invariant closed == |Where(deals[..i], SoldFor(author))|
      invariant Aggregates(losses, deals[..i], LossKey(author), NoName, NoKw)
      invariant closed + TotalDeals(losses) <= total
    {
      var d := deals[i];
      assert deals[..i + 1] == deals[..i] + [d];
      WhereSnoc(deals[..i], d, SetByAuthor(author));
      WhereSnoc(deals[..i], d, SoldFor(author));
      GroupStep(losses, deals[..i], d, LossKey(author), NoName, NoKw);
      if d.setter == author {
        total := total + 1;
        if d.status == Sold {
          closed := closed + 1;
        } else if d.status == Canceled {
          losses := Bump(losses, d.lossReason, NoName(d), NoKw(d));
        }
      }
    }
    assert deals[..|deals|] == deals;
    GroupedIsWhere(deals, LossKey(author), LostFor(author));
  }

  // ---------------------------------------------------------------------
  // The dictionary object
  // ---------------------------------------------------------------------

  /** The global `deals` dictionary. */
  class Tracker {
    var entries: seq<Entry>

    ghost predicate Valid()
      reads this
    {
      KeysDistinct(entries)
    }

    constructor ()
      ensures entries == [] && Valid()
    {
      entries := [];
    }

    /** `#set Name`: files a fresh appointment under its key, replacing a record with the same key in place. */
    method SetAppointment(name: string, author: string, epoch: int, now: string) returns (key: string)
      requires Valid()
      modifies this
      ensures Valid()
      ensures key == AppointmentKey(name, epoch)
      ensures entries == Put(old(entries), key, NewAppointment(name, author, now))
    {
      key := AppointmentKey(name, epoch);
      PutEffect(entries, key, NewAppointment(name, author, now));
      entries := Put(entries, key, NewAppointment(name, author, now));
    }

    /** `#sold Name [kW]`: walks the records in insertion order and marks the first one of that name sold. */
    method MarkSold(name: string, author: string, kw: Option<real>) returns (found: bool)
      requires Valid()
      modifies this
      ensures Valid()
      ensures found <==> FirstWhere(old(entries), NameIs(name)).Some?
      ensures entries == SoldStep(old(entries), name, author, kw)
    {
      found := false;
      var i := 0;
      while i < |entries|
        invariant 0 <= i <= |entries|
        invariant entries == old(entries)
        invariant forall j :: 0 <= j < i ==> !NameIs(name)(entries[j])
      {
        if Lower(entries[i].deal.name) == Lower(name) {
          assert FirstWhere(entries, NameIs(name)) == Some(i);
          entries := entries[i := Entry(entries[i].key, Sell(entries[i].deal, author, kw))];
          found := true;
          break;
        }
        i := i + 1;
      }
      if !found {
        assert FirstWhere(entries, NameIs(name)) == None;
      }
    }

    /**
     * `#canceled Name`: marks the first record of that name canceled and
     * records the loss reason of the exchange that follows; nothing, and
     * no exchange, when no record has that name.
     */
    method MarkCanceled(name: string, firstReply: string, followUp: string) returns (reason: Option<string>)
      requires Valid()
      modifies this
      ensures Valid()
      ensures reason.Some? <==> FirstWhere(old(entries), NameIs(name)).Some?
      ensures reason.Some? ==> reason.value == LossReason(firstReply, followUp)
      ensures entries == CanceledStep(old(entries), name, LossReason(firstReply, followUp))
    {
      reason := None;
      var i := 0;
      while i < |entries|
        invariant 0 <= i <= |entries|
        invariant entries == old(entries)
        invariant forall j :: 0 <= j < i ==> !NameIs(name)(entries[j])
      {
        if Lower(entries[i].deal.name) == Lower(name) {
          assert FirstWhere(entries, NameIs(name)) == Some(i);
          var r := LossReason(firstReply, followUp);
          entries := entries[i := Entry(entries[i].key, Cancel(entries[i].deal, r))];
          reason := Some(r);
          break;
        }
        i := i + 1;
      }
      if reason.None? {
        assert FirstWhere(entries, NameIs(name)) == None;
      }
    }

    /** `on_message`: ignores bots, then dispatches `#set`, `#sold` and `#canceled` as parsed by the source. */
    method OnMessage(fromBot: bool, raw: string, author: string, epoch: int, now: string, firstReply: string, followUp: string)
      requires Valid()
      modifies this
      ensures Valid()
      ensures entries == MessageStep(old(entries), fromBot, raw, author, epoch, now, firstReply, followUp)
    {
      if !fromBot {
        Dispatch(ParseMessage(raw), author, epoch, now, firstReply, followUp);
      }
    }

    /** `on_message` with `#sold`'s kW optional. */
    method OnMessageIntended(fromBot: bool, raw: string, author: string, epoch: int, now: string, firstReply: string, followUp: string)
      requires Valid()
      modifies this
      ensures Valid()
      ensures entries == MessageStepIntended(old(entries), fromBot, raw, author, epoch, now, firstReply, followUp)
    {
      if !fromBot {
        Dispatch(ParseMessageIntended(raw), author, epoch, now, firstReply, followUp);
      }
    }

    /** Carries out one parsed command. */
    method Dispatch(command: Command, author: string, epoch: int, now: string, firstReply: string, followUp: string)
      requires Valid()
      modifies this
      ensures Valid()
      ensures entries == CommandStep(old(entries), command, author, epoch, now, firstReply, followUp)
    {
      match command {
        case SetCommand(name) =>
          var _ := SetAppointment(name, author, epoch, now);
        case SoldCommand(name, kw) =>
          var _ := MarkSold(name, author, kw);
        case CanceledCommand(name) =>
          var _ := MarkCanceled(name, firstReply, followUp);
        case NoCommand =>
      }
    }
  }
}
