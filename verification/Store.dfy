/** The status store as a list of cards, and the map it stands for. */
module Store {
  import opened CText
  import opened Search
  import opened Cards
  import opened Entries

  const TOTAL_SIZE: nat := 2880 * 64
  /** How many 80-column lines the buffer has. */
  const CAPACITY: nat := TOTAL_SIZE / LINE

  ghost predicate AllCards(cards: seq<string>) { forall i | 0 <= i < |cards| :: Card(cards[i]) }

  ghost predicate AllAssigned(cards: seq<string>) {
    forall i | 0 <= i < |cards| :: |cards[i]| == LINE && cards[i][8] == '='
  }

  predicate AllLines(cards: seq<string>) { forall i | 0 <= i < |cards| :: |cards[i]| == LINE }

  function NameOf(line: string): string
    requires |line| == LINE
  {
    FoldText(KeyOf(line))
  }

  /** The first card from `from` on that carries the keyword, letter case ignored. */
  function FindFrom(cards: seq<string>, key: string, from: nat): (r: Option<nat>)
    requires AllLines(cards) && from <= |cards|
    ensures r.Some? ==> from <= r.value < |cards| && NameOf(cards[r.value]) == FoldText(key)
    ensures r.Some? ==> forall j | from <= j < r.value :: NameOf(cards[j]) != FoldText(key)
    ensures r.None? ==> forall j | from <= j < |cards| :: NameOf(cards[j]) != FoldText(key)
    decreases |cards| - from
  {
    if from == |cards| then None
    else if NameOf(cards[from]) == FoldText(key) then Some(from)
    else FindFrom(cards, key, from + 1)
  }

  function Find(cards: seq<string>, key: string): (r: Option<nat>)
    requires AllLines(cards)
    ensures r.Some? ==> r.value < |cards|
  {
    FindFrom(cards, Key8(key), 0)
  }

  function CommentFor(cards: seq<string>, key: string): string
    requires AllLines(cards)
  {
    var at := Find(cards, key);
    if at.Some? then OldComment(cards[at.value]) else ""
  }

  /** hputc on the list: in place, or at the end. */
  function Put(cards: seq<string>, key: string, value: string): (r: seq<string>)
    requires AllLines(cards) && Fits(value, CommentFor(cards, key))
    ensures AllLines(r)
  {
    var line := PutLine(Key8(key), value, CommentFor(cards, key));
    match Find(cards, key)
    case Some(i) => cards[i := line]
    case None => cards + [line]
  }

  /** hdel on the list. */
  function Delete(cards: seq<string>, key: string): (r: seq<string>)
    requires AllLines(cards)
    ensures AllLines(r)
  {
    match Find(cards, key)
    case Some(i) => cards[..i] + cards[i + 1..]
    case None => cards
  }

  /** Whether hputcom stays inside the card it finds. */
  predicate ComFits(cards: seq<string>, key: string, comment: string)
    requires AllLines(cards)
  {
    var at := Find(cards, key);
    at.Some? ==> CommentFits(cards[at.value], comment)
  }

  /** hputcom on the list; false when there is no such card or no room on it. */
  function Comment(cards: seq<string>, key: string, comment: string): (r: (seq<string>, bool))
    requires AllLines(cards) && ComFits(cards, key, comment)
    ensures AllLines(r.0)
  {
    match Find(cards, key)
    case None => (cards, false)
    case Some(i) =>
      match ComLine(cards[i], comment)
      case None => (cards, false)
      case Some(line) => (cards[i := line], true)
  }

  /** hgetc_thread_safe on the list. */
  function Get(cards: seq<string>, key: string): Option<string>
    requires AllLines(cards)
  {
    match Find(cards, key)
    case None => None
    case Some(i) => Some(GetText(cards[i]))
  }

  // ------------------------------------------------------------------ runs

  datatype Op =
    | PutText(key: string, text: string)
    | PutNumber(key: string, value: string)
    | PutComment(key: string, comment: string)
    | Del(key: string)

  /** The names and texts of the cards, in order. */
  function Listing(cards: seq<string>): (r: seq<Entry>)
    requires AllLines(cards)
    ensures |r| == |cards|
    ensures forall i | 0 <= i < |cards| :: r[i] == Entry(NameOf(cards[i]), GetText(cards[i]))
  {
    seq(|cards|, i requires 0 <= i < |cards| => Entry(NameOf(cards[i]), GetText(cards[i])))
  }

  /** What every reachable list satisfies: legal cards, names distinct ignoring case. */
  ghost predicate Good(cards: seq<string>)
    ensures Good(cards) ==> AllLines(cards)
  {
    AllCards(cards) && AllAssigned(cards) && Distinct(Listing(cards))
  }

  /** The map the list stands for. */
  ghost function View(cards: seq<string>): map<string, string>
    requires AllLines(cards)
  {
    MapOf(Listing(cards))
  }

  /** Room for one more card: END moves down a line and a NUL must still follow it. */
  ghost predicate HasRoom(cards: seq<string>, key: string)
    requires AllLines(cards)
  {
    Find(cards, key).None? ==> |cards| + 2 < CAPACITY
  }

  ghost predicate Legal(cards: seq<string>, op: Op)
    requires AllLines(cards)
  {
    && LegalKey(Key8(op.key))
    && match op
       case PutText(k, t) => PlainText(t) && HasRoom(cards, k) && Fits(Quoted(t), CommentFor(cards, k))
       case PutNumber(k, v) => NumberText(v) && HasRoom(cards, k)
       case PutComment(k, c) => PlainText(c) && ComFits(cards, k, c)
       case Del(k) => true
  }

  /** What the operation means on a map from folded keywords to texts. */
  function MapApply(m: map<string, string>, op: Op): map<string, string> {
    var name := FoldText(Key8(op.key));
    match op
    case PutText(_, t) => m[name := Clean(t)]
    case PutNumber(_, v) => m[name := DropMinusZero(v)]
    case PutComment(_, _) => m
    case Del(_) => m - {name}
  }

  /** What the operation does to the order of the keywords. */
  function OrderApply(names: seq<string>, op: Op): seq<string> {
    var name := FoldText(Key8(op.key));
    match op
    case PutText(_, _) => if name in names then names else names + [name]
    case PutNumber(_, _) => if name in names then names else names + [name]
    case PutComment(_, _) => names
    case Del(_) => Without(names, name)
  }

  function Without(names: seq<string>, name: string): seq<string> {
    if names == [] then []
    else if names[0] == name then names[1..]
    else [names[0]] + Without(names[1..], name)
  }

  lemma {:induction false} WithoutAt(names: seq<string>, at: nat)
    requires at < |names| && forall j | 0 <= j < at :: names[j] != names[at]
    ensures Without(names, names[at]) == names[..at] + names[at + 1..]
  {
    if at > 0 {
      WithoutAt(names[1..], at - 1);
      assert names[..at] + names[at + 1..] == [names[0]] + (names[1..][..at - 1] + names[1..][at..]);
    }
  }

  lemma {:induction false} WithoutMissing(names: seq<string>, name: string)
    requires name !in names
    ensures Without(names, name) == names
  {
    if names != [] {
      WithoutMissing(names[1..], name);
    }
  }

  // What each operation does to the listing.

  lemma FindInListing(cards: seq<string>, key: string)
    requires AllLines(cards)
    ensures var name := FoldText(Key8(key));
      match Find(cards, key)
      case Some(i) => i < |cards| && Listing(cards)[i].name == name && forall j | 0 <= j < i :: Listing(cards)[j].name != name
      case None => !Holds(Listing(cards), name)
  {
  }

  lemma ListingReplaced(cards: seq<string>, at: nat, line: string)
    requires AllLines(cards) && at < |cards| && |line| == LINE
    ensures Listing(cards[at := line]) == Listing(cards)[at := Entry(NameOf(line), GetText(line))]
  {
  }

  lemma ListingAppended(cards: seq<string>, line: string)
    requires AllLines(cards) && |line| == LINE
    ensures AllLines(cards + [line])
    ensures Listing(cards + [line]) == Listing(cards) + [Entry(NameOf(line), GetText(line))]
  {
  }

  lemma ListingRemoved(cards: seq<string>, at: nat)
    requires AllLines(cards) && at < |cards|
    ensures AllLines(cards[..at] + cards[at + 1..])
    ensures Listing(cards[..at] + cards[at + 1..]) == Listing(cards)[..at] + Listing(cards)[at + 1..]
  {
  }

  lemma GoodReplaced(cards: seq<string>, at: nat, line: string)
    requires AllCards(cards) && AllAssigned(cards) && at < |cards| && Card(line) && line[8] == '='
    ensures AllCards(cards[at := line]) && AllAssigned(cards[at := line])
  {
    assert |line| == LINE;
    hide Card;
  }

  lemma GoodAppended(cards: seq<string>, line: string)
    requires AllCards(cards) && AllAssigned(cards) && Card(line) && line[8] == '='
    ensures AllCards(cards + [line]) && AllAssigned(cards + [line])
  {
    assert |line| == LINE;
    hide Card;
  }

  lemma GoodRemoved(cards: seq<string>, at: nat)
    requires AllCards(cards) && AllAssigned(cards) && at < |cards|
    ensures AllCards(cards[..at] + cards[at + 1..]) && AllAssigned(cards[..at] + cards[at + 1..])
  {
    hide Card;
    var after := cards[..at] + cards[at + 1..];
    assert forall i | 0 <= i < |after| :: after[i] == cards[if i < at then i else i + 1];
  }

  lemma PlacedAt(cards: seq<string>, at: nat, line: string)
    requires Good(cards) && at < |cards|
    requires Card(line) && line[8] == '=' && NameOf(line) == NameOf(cards[at])
    ensures Good(cards[at := line])
    ensures View(cards[at := line]) == View(cards)[NameOf(line) := GetText(line)]
    ensures Order(Listing(cards[at := line])) == Order(Listing(cards))
  {
    assert |line| == LINE;
    GoodReplaced(cards, at, line);
    ListingReplaced(cards, at, line);
    hide Card, NameOf, GetText, MapOf, AllCards, AllAssigned, Distinct, Order, Listing;
    MapOfReplaced(Listing(cards), at, GetText(line));
    OrderReplaced(Listing(cards), at, GetText(line));
  }

  lemma PlacedAtEnd(cards: seq<string>, line: string)
    requires Good(cards)
    requires Card(line) && line[8] == '=' && !Holds(Listing(cards), NameOf(line))
    ensures Good(cards + [line])
    ensures View(cards + [line]) == View(cards)[NameOf(line) := GetText(line)]
    ensures Order(Listing(cards + [line])) == Order(Listing(cards)) + [NameOf(line)]
  {
    assert |line| == LINE;
    GoodAppended(cards, line);
    ListingAppended(cards, line);
    hide Card, NameOf, GetText, MapOf, AllCards, AllAssigned, Distinct, Order, Listing, Holds;
    MapOfAppended(Listing(cards), Entry(NameOf(line), GetText(line)));
    OrderAppended(Listing(cards), Entry(NameOf(line), GetText(line)));
  }

  lemma RemovedAt(cards: seq<string>, at: nat)
    requires Good(cards) && at < |cards|
    ensures Good(cards[..at] + cards[at + 1..])
    ensures View(cards[..at] + cards[at + 1..]) == View(cards) - {NameOf(cards[at])}
    ensures Order(Listing(cards[..at] + cards[at + 1..])) == Order(Listing(cards))[..at] + Order(Listing(cards))[at + 1..]
  {
    GoodRemoved(cards, at);
    ListingRemoved(cards, at);
    hide Card, NameOf, GetText, MapOf, AllCards, AllAssigned, Distinct, Order, Listing;
    MapOfRemoved(Listing(cards), at);
    OrderRemoved(Listing(cards), at);
  }

  /** A list with one card put in place or at the end. */
  lemma Placed(cards: seq<string>, key: string, line: string, text: string)
    requires Good(cards)
    requires Card(line) && line[8] == '=' && KeyOf(line) == Key8(key) && GetText(line) == text
    ensures var name := FoldText(Key8(key));
      var after := match Find(cards, key) case Some(i) => cards[i := line] case None => cards + [line];
      && Good(after) && View(after) == View(cards)[name := text]
      && Order(Listing(after)) == if name in Order(Listing(cards)) then Order(Listing(cards))
                                  else Order(Listing(cards)) + [name]
  {
    assert NameOf(line) == FoldText(Key8(key));
    hide Card, NameOf, GetText, MapOf, FoldText, KeyOf, Good, View;
    FindInListing(cards, key);
    match Find(cards, key)
    case Some(i) =>
      PlacedAt(cards, i, line);
      assert Order(Listing(cards))[i] == FoldText(Key8(key));
    case None =>
      PlacedAtEnd(cards, line);
  }

  lemma CommentForIsCardComment(cards: seq<string>, key: string)
    requires Good(cards)
    ensures CardComment(CommentFor(cards, key))
  {
    var at := Find(cards, key);
    if at.Some? {
      OldCommentOfCard(cards[at.value]);
    }
  }

  /** What one step keeps, and what it means. */
  ghost predicate StepMeans(cards: seq<string>, after: seq<string>, op: Op) {
    && Good(cards) && Good(after)
    && View(after) == MapApply(View(cards), op)
    && Order(Listing(after)) == OrderApply(Order(Listing(cards)), op)
  }

  lemma PutTextStep(cards: seq<string>, key: string, text: string)
    requires Good(cards) && Legal(cards, PutText(key, text))
    ensures StepMeans(cards, Put(cards, key, Quoted(text)), PutText(key, text))
  {
    CommentForIsCardComment(cards, key);
    PutTextCard(Key8(key), text, CommentFor(cards, key));
    Placed(cards, key, PutLine(Key8(key), Quoted(text), CommentFor(cards, key)), Clean(text));
  }

  lemma PutNumberStep(cards: seq<string>, key: string, v: string)
    requires Good(cards) && Legal(cards, PutNumber(key, v))
    ensures Fits(v, CommentFor(cards, key))
    ensures StepMeans(cards, Put(cards, key, v), PutNumber(key, v))
  {
    CommentForIsCardComment(cards, key);
    PutNumberCard(Key8(key), v, CommentFor(cards, key));
    Placed(cards, key, PutLine(Key8(key), v, CommentFor(cards, key)), DropMinusZero(v));
  }

  lemma DeletePresent(cards: seq<string>, at: nat)
    requires Good(cards) && at < |cards|
    requires forall j | 0 <= j < at :: Listing(cards)[j].name != Listing(cards)[at].name
    ensures var after := cards[..at] + cards[at + 1..];
      var name := Listing(cards)[at].name;
      && Good(after) && View(after) == View(cards) - {name}
      && Order(Listing(after)) == Without(Order(Listing(cards)), name)
  {
    hide Good, View, Without;
    RemovedAt(cards, at);
    WithoutAt(Order(Listing(cards)), at);
  }

  lemma DeleteMissing(cards: seq<string>, name: string)
    requires Good(cards) && !Holds(Listing(cards), name)
    ensures View(cards) == View(cards) - {name}
    ensures Order(Listing(cards)) == Without(Order(Listing(cards)), name)
  {
    hide MapOf, Listing, Without, AllCards, AllAssigned;
    var es := Listing(cards);
    MapOfHolds(es);
    assert name !in Order(es);
    WithoutMissing(Order(es), name);
    RemoveAbsent(MapOf(es), name);
  }

  lemma DeleteStep(cards: seq<string>, key: string)
    requires Good(cards)
    ensures StepMeans(cards, Delete(cards, key), Del(key))
  {
    hide Good, View, Without, Listing, FoldText, Find, Order, Holds, Key8, AllLines;
    FindInListing(cards, key);
    match Find(cards, key)
    case Some(i) => DeletePresent(cards, i);
    case None => DeleteMissing(cards, FoldText(Key8(key)));
  }

  lemma CommentedCard(line: string, comment: string)
    requires Card(line) && PlainText(comment) && CommentFits(line, comment) && ComLine(line, comment).Some?
    requires line[8] == '='
    ensures var after := ComLine(line, comment).value;
      Card(after) && after[8] == '=' && NameOf(after) == NameOf(line) && GetText(after) == GetText(line)
  {
    if NumberCard(line) {
      hide CommentFits, ComLine, GetText, Card, NumberCard;
      ComKeepsNumber(line, comment);
    } else {
      var close :| StringCard(line, close);
      hide CommentFits, ComLine, GetText, Card, NumberCard;
      ComKeepsString(line, close, comment);
    }
  }

  lemma CommentStep(cards: seq<string>, key: string, comment: string)
    requires Good(cards) && Legal(cards, PutComment(key, comment))
    ensures StepMeans(cards, Comment(cards, key, comment).0, PutComment(key, comment))
  {
    hide CommentFits, ComLine, GetText, Card, LegalKey, MapOf, NameOf, PlainText;
    var at := Find(cards, key);
    if at.Some? && ComLine(cards[at.value], comment).Some? {
      var i := at.value;
      var line := ComLine(cards[i], comment).value;
      CommentedCard(cards[i], comment);
      PlacedAt(cards, i, line);
      ListingReplaced(cards, i, line);
      assert Listing(cards[i := line]) == Listing(cards);
    }
  }

  // ------------------------------------------------------------------ runs

  ghost predicate LegalRun(cards: seq<string>, ops: seq<Op>)
    requires AllLines(cards)
    decreases |ops|
  {
    ops == [] || (Legal(cards, ops[0]) && LegalRun(Step(cards, ops[0]), ops[1..]))
  }

  ghost function Step(cards: seq<string>, op: Op): (r: seq<string>)
    requires AllLines(cards) && Legal(cards, op)
    ensures AllLines(r)
  {
    match op
    case PutText(k, t) => Put(cards, k, Quoted(t))
    case PutNumber(k, v) => Put(cards, k, v)
    case PutComment(k, c) => Comment(cards, k, c).0
    case Del(k) => Delete(cards, k)
  }

  ghost function Run(cards: seq<string>, ops: seq<Op>): (r: seq<string>)
    requires AllLines(cards) && LegalRun(cards, ops)
    ensures AllLines(r)
    decreases |ops|
  {
    if ops == [] then cards else Run(Step(cards, ops[0]), ops[1..])
  }

  function MapRun(m: map<string, string>, ops: seq<Op>): map<string, string>
    decreases |ops|
  {
    if ops == [] then m else MapRun(MapApply(m, ops[0]), ops[1..])
  }

  function OrderRun(names: seq<string>, ops: seq<Op>): seq<string>
    decreases |ops|
  {
    if ops == [] then names else OrderRun(OrderApply(names, ops[0]), ops[1..])
  }

  lemma StepRefines(cards: seq<string>, op: Op)
    requires Good(cards) && Legal(cards, op)
    ensures StepMeans(cards, Step(cards, op), op)
  {
    match op
    case PutText(k, t) => PutTextStep(cards, k, t);
    case PutNumber(k, v) => PutNumberStep(cards, k, v);
    case PutComment(k, c) => CommentStep(cards, k, c);
    case Del(k) => DeleteStep(cards, k);
  }

  /** Any legal run of puts, comment puts and deletes is the same run on an ordered map. */
  lemma {:induction false} RunRefinesMap(cards: seq<string>, ops: seq<Op>)
    requires Good(cards) && LegalRun(cards, ops)
    ensures Good(Run(cards, ops))
    ensures View(Run(cards, ops)) == MapRun(View(cards), ops)
    ensures Order(Listing(Run(cards, ops))) == OrderRun(Order(Listing(cards)), ops)
    decreases |ops|
  {
    if ops != [] {
      StepRefines(cards, ops[0]);
      RunRefinesMap(Step(cards, ops[0]), ops[1..]);
    }
  }

  /** A get is a lookup in the map: it sees the card of exactly the keyword asked for. */
  lemma GetIsLookup(cards: seq<string>, key: string)
    requires Good(cards)
    ensures var name := FoldText(Key8(key));
      Get(cards, key) == if name in View(cards) then Some(View(cards)[name]) else None
  {
    FindInListing(cards, key);
    MapOfHolds(Listing(cards));
  }
}
