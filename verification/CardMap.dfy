/** The map from keywords to whole cards, comments included, that a store stands for, and what
    each operation does to it. */
module CardMap {
  import opened CText
  import opened Search
  import opened Cards
  import opened Entries
  import opened Store

  /** The names and the cards themselves, in order. */
  ghost function CardListing(cards: seq<string>): (r: seq<Entry>)
    requires AllLines(cards)
    ensures |r| == |cards|
    ensures forall i | 0 <= i < |cards| :: r[i] == Entry(NameOf(cards[i]), cards[i])
  {
    seq(|cards|, i requires 0 <= i < |cards| => Entry(NameOf(cards[i]), cards[i]))
  }

  ghost function Lines(cards: seq<string>): map<string, string>
    requires AllLines(cards)
  {
    MapOf(CardListing(cards))
  }

  function NameIn(op: Op): string { FoldText(Key8(op.key)) }

  /** What an operation does to the map: it concerns the card of its own keyword alone. */
  ghost function LinesAfter(cards: seq<string>, op: Op): map<string, string>
    requires AllLines(cards) && Legal(cards, op)
  {
    var m, name := Lines(cards), NameIn(op);
    match op
    case PutText(k, t) => m[name := PutLine(Key8(k), Quoted(t), CommentFor(cards, k))]
    case PutNumber(k, v) => m[name := PutLine(Key8(k), v, CommentFor(cards, k))]
    case PutComment(k, c) =>
      if Find(cards, k).Some? && ComLine(cards[Find(cards, k).value], c).Some? then
        m[name := ComLine(cards[Find(cards, k).value], c).value]
      else m
    case Del(k) => m - {name}
  }

  lemma GoodIsDistinct(cards: seq<string>)
    requires Good(cards)
    ensures Entries.Distinct(CardListing(cards))
  {
    forall i, j | 0 <= i < j < |cards|
      ensures CardListing(cards)[i].name != CardListing(cards)[j].name
    {
      assert Listing(cards)[i].name != Listing(cards)[j].name;
    }
  }

  /** The card that a keyword finds is the one the map has for its name. */
  lemma FindIsLookup(cards: seq<string>, key: string)
    requires Good(cards)
    ensures var name := FoldText(Key8(key));
      match Find(cards, key)
      case None => name !in Lines(cards)
      case Some(i) => i < |cards| && NameOf(cards[i]) == name && name in Lines(cards) && Lines(cards)[name] == cards[i]
  {
    GoodIsDistinct(cards);
    MapOfHolds(CardListing(cards));
    hide MapOf, Good;
    var at := Find(cards, key);
    if at.Some? {
      assert CardListing(cards)[at.value].name == FoldText(Key8(key));
    }
  }

  lemma LinePlaced(cards: seq<string>, key: string, line: string)
    requires Good(cards) && |line| == LINE && NameOf(line) == FoldText(Key8(key))
    ensures var after := match Find(cards, key) case Some(i) => cards[i := line] case None => cards + [line];
      AllLines(after) && Lines(after) == Lines(cards)[NameOf(line) := line]
  {
    GoodIsDistinct(cards);
    FindIsLookup(cards, key);
    hide Good, Entries.Distinct, Find, NameOf, FoldText, Key8;
    match Find(cards, key)
    case Some(i) => LineReplaced(cards, i, line);
    case None => LineAppended(cards, line);
  }

  lemma LineReplaced(cards: seq<string>, i: nat, line: string)
    requires AllLines(cards) && Entries.Distinct(CardListing(cards))
    requires i < |cards| && |line| == LINE && NameOf(line) == NameOf(cards[i])
    ensures AllLines(cards[i := line]) && Lines(cards[i := line]) == Lines(cards)[NameOf(line) := line]
  {
    var es, e := CardListing(cards), Entry(NameOf(line), line);
    assert es[i].name == e.name;
    hide MapOf, Entries.Distinct, NameOf;
    assert CardListing(cards[i := line]) == es[i := e];
    hide CardListing;
    MapOfReplaced(es, i, line);
  }

  lemma LineAppended(cards: seq<string>, line: string)
    requires AllLines(cards) && Entries.Distinct(CardListing(cards))
    requires |line| == LINE && NameOf(line) !in Lines(cards)
    ensures AllLines(cards + [line]) && Lines(cards + [line]) == Lines(cards)[NameOf(line) := line]
  {
    var es, e := CardListing(cards), Entry(NameOf(line), line);
    NotHeld(es, e.name);
    hide MapOf, Entries.Distinct, NameOf, Holds;
    assert CardListing(cards + [line]) == es + [e];
    hide CardListing;
    MapOfAppended(es, e);
  }

  lemma NotHeld(es: seq<Entry>, name: string)
    requires Entries.Distinct(es) && name !in MapOf(es)
    ensures !Holds(es, name)
  {
    MapOfHolds(es);
    hide MapOf, Entries.Distinct;
  }

  lemma CardListingRemoved(cards: seq<string>, i: nat)
    requires AllLines(cards) && i < |cards|
    ensures AllLines(cards[..i] + cards[i + 1..])
    ensures CardListing(cards[..i] + cards[i + 1..]) == CardListing(cards)[..i] + CardListing(cards)[i + 1..]
  {
    hide NameOf;
  }

  lemma LineRemoved(cards: seq<string>, key: string)
    requires Good(cards)
    ensures Lines(Delete(cards, key)) == Lines(cards) - {FoldText(Key8(key))}
  {
    var name := FoldText(Key8(key));
    GoodIsDistinct(cards);
    FindIsLookup(cards, key);
    var es := CardListing(cards);
    assert Find(cards, key).Some? ==> es[Find(cards, key).value].name == name;
    hide MapOf, Good, Entries.Distinct, CardListing, Find, FoldText, Key8, NameOf;
    match Find(cards, key)
    case Some(i) =>
      MapOfRemoved(es, i);
      CardListingRemoved(cards, i);
    case None =>
      RemoveAbsent(MapOf(es), name);
  }

  lemma CommentedName(line: string, comment: string)
    requires Card(line) && PlainText(comment) && line[8] == '=' && CommentFits(line, comment)
    requires ComLine(line, comment).Some?
    ensures |line| == LINE && NameOf(ComLine(line, comment).value) == NameOf(line)
  {
    assert |line| == LINE;
    hide Card, CommentFits, ComLine, GetText;
    CommentedCard(line, comment);
  }

  lemma PutOnLines(cards: seq<string>, key: string, value: string)
    requires Good(cards) && LegalKey(Key8(key)) && StorableValue(value) && Fits(value, CommentFor(cards, key))
    ensures Lines(Put(cards, key, value)) ==
      Lines(cards)[FoldText(Key8(key)) := PutLine(Key8(key), value, CommentFor(cards, key))]
  {
    hide Good, Lines, PutLine, LegalKey, StorableValue, Fits, FoldText, Key8, CommentFor, NameOf;
    PutName(cards, key, value);
    LinePlaced(cards, key, PutLine(Key8(key), value, CommentFor(cards, key)));
  }

  lemma CommentOnLines(cards: seq<string>, key: string, c: string)
    requires Good(cards) && Legal(cards, PutComment(key, c))
    ensures Lines(Comment(cards, key, c).0) == LinesAfter(cards, PutComment(key, c))
  {
    if Find(cards, key).Some? && ComLine(cards[Find(cards, key).value], c).Some? {
      var line := cards[Find(cards, key).value];
      FindIsLookup(cards, key);
      GoodCard(cards, Find(cards, key).value);
      hide Good, Lines, LegalKey, PlainText, ComLine, CommentFits, FoldText, Key8, NameOf, Find;
      CommentedName(line, c);
      LinePlaced(cards, key, ComLine(line, c).value);
    }
  }

  /** Every operation does to the map what is said above, and nothing else. */
  lemma StepOnLines(cards: seq<string>, op: Op)
    requires Good(cards) && Legal(cards, op)
    ensures Good(Step(cards, op)) && Lines(Step(cards, op)) == LinesAfter(cards, op)
  {
    hide Good, Lines, PutLine, LegalKey, Fits, Quoted, ComLine, CommentFits, PlainText, NumberText, Find, FoldText, Key8;
    hide Put, Delete, Comment, CommentFor;
    assert Good(Step(cards, op)) by { StepRefines(cards, op); }
    match op
    case PutText(k, t) => PutOnLines(cards, k, Quoted(t));
    case PutNumber(k, v) =>
      PutNumberStep(cards, k, v);
      PutOnLines(cards, k, v);
    case PutComment(k, c) => CommentOnLines(cards, k, c);
    case Del(k) => LineRemoved(cards, k);
  }

  lemma GoodCard(cards: seq<string>, i: nat)
    requires Good(cards) && i < |cards|
    ensures Card(cards[i]) && |cards[i]| == LINE && cards[i][8] == '='
  {
    hide Card;
  }

  lemma PutName(cards: seq<string>, key: string, value: string)
    requires Good(cards) && LegalKey(Key8(key)) && StorableValue(value) && Fits(value, CommentFor(cards, key))
    ensures NameOf(PutLine(Key8(key), value, CommentFor(cards, key))) == FoldText(Key8(key))
  {
    CommentForIsCardComment(cards, key);
    hide PutLine, Card, Good, CommentFor, CardComment;
    if NumberText(value) {
      PutNumberCard(Key8(key), value, CommentFor(cards, key));
    } else {
      var t :| PlainText(t) && value == Quoted(t);
      PutTextCard(Key8(key), t, CommentFor(cards, key));
    }
  }

  /** Puts, deletes and comment puts leave the card of every other keyword as it is, to the last
      column. */
  lemma OthersKeepTheirCard(cards: seq<string>, op: Op, key: string)
    requires Good(cards) && Legal(cards, op) && !SameKey(Key8(key), Key8(op.key))
    ensures Good(Step(cards, op)) && CardFor(Step(cards, op), key) == CardFor(cards, key)
  {
    hide *;
    StepOnLines(cards, op);
    CardIsLookup(cards, key);
    CardIsLookup(Step(cards, op), key);
    OtherName(cards, op, key);
  }

  lemma OtherName(cards: seq<string>, op: Op, key: string)
    requires AllLines(cards) && Legal(cards, op) && !SameKey(Key8(key), Key8(op.key))
    ensures var name := FoldText(Key8(key));
      && (name in LinesAfter(cards, op) <==> name in Lines(cards))
      && (name in Lines(cards) ==> LinesAfter(cards, op)[name] == Lines(cards)[name])
  {
    hide Lines, PutLine, Legal, ComLine, CommentFor, Find, FoldText, Key8, Quoted;
  }

  function CardFor(cards: seq<string>, key: string): (r: Option<string>)
    requires AllLines(cards)
    ensures r.Some? ==> |r.value| == LINE
  {
    var at := Find(cards, key);
    if at.Some? then Some(cards[at.value]) else None
  }

  lemma CardIsLookup(cards: seq<string>, key: string)
    requires Good(cards)
    ensures var name := FoldText(Key8(key));
      CardFor(cards, key) == if name in Lines(cards) then Some(Lines(cards)[name]) else None
  {
    FindIsLookup(cards, key);
    hide Good, Lines;
  }

  // ------------------------------------------------------------------ numbers and comments in runs

  /** A number card with this comment, or with none. */
  ghost predicate Remarked(line: string, c: Option<string>)
    ensures Remarked(line, c) ==> |line| == LINE
  {
    && Card(line) && NumberCard(line)
    && match c
       case None => OldComment(line) == ""
       case Some(text) => LegalComment(text) && HasComment(line, text)
  }

  /** Operations on the keyword are number puts and comment puts; on others they are any. */
  ghost predicate NumberOps(ops: seq<Op>, key: string) {
    forall i | 0 <= i < |ops| && SameKey(Key8(ops[i].key), Key8(key)) ::
      ops[i].PutNumber? || (ops[i].PutComment? && LegalComment(ops[i].comment))
  }

  /** The text of the last number put on the keyword. */
  ghost function LastNumber(ops: seq<Op>, key: string, text: string): string
    decreases |ops|
  {
    if ops == [] then text
    else
      var op := ops[0];
      LastNumber(ops[1..], key,
                 if SameKey(Key8(op.key), Key8(key)) && op.PutNumber? then DropMinusZero(op.value) else text)
  }

  /** The last comment put on the keyword. */
  ghost function LastComment(ops: seq<Op>, key: string, c: Option<string>): Option<string>
    decreases |ops|
  {
    if ops == [] then c
    else
      var op := ops[0];
      LastComment(ops[1..], key,
                  if SameKey(Key8(op.key), Key8(key)) && op.PutComment? then Some(op.comment) else c)
  }

  /** A number put keeps the remark and shows the number. */
  lemma NumberPutOnCard(line: string, key: string, v: string, c: Option<string>)
    requires Remarked(line, c) && LegalKey(key) && NumberText(v)
    ensures Fits(v, OldComment(line))
    ensures var after := PutLine(key, v, OldComment(line));
      Remarked(after, c) && GetText(after) == DropMinusZero(v)
  {
    match c
    case Some(text) =>
      NextKeepsComment(line, key, v, text);
    case None =>
      PutNumberCard(key, v, "");
      BlankBehindNumber(key, v);
  }

  /** A comment put replaces the remark and keeps the number. */
  lemma CommentPutOnCard(line: string, d: string, c: Option<string>)
    requires Remarked(line, c) && line[8] == '=' && LegalComment(d)
    ensures CommentFits(line, d) && ComLine(line, d).Some?
    ensures var after := ComLine(line, d).value; Remarked(after, Some(d)) && GetText(after) == GetText(line)
  {
    ComKeepsNumber(line, d);
    ComStoresComment(line, d);
  }

  lemma OneOp(op: Op, key: string, c: Option<string>, text: string)
    ensures LastComment([op], key, c) ==
      if SameKey(Key8(op.key), Key8(key)) && op.PutComment? then Some(op.comment) else c
    ensures LastNumber([op], key, text) ==
      if SameKey(Key8(op.key), Key8(key)) && op.PutNumber? then DropMinusZero(op.value) else text
  {
    assert [op][0] == op && [op][1..] == [];
  }

  /** One operation on the card of the keyword. */
  lemma StepOnCard(cards: seq<string>, op: Op, key: string, c: Option<string>)
    requires Good(cards) && Legal(cards, op)
    requires SameKey(Key8(op.key), Key8(key)) ==> op.PutNumber? || (op.PutComment? && LegalComment(op.comment))
    requires CardFor(cards, key).Some? && Remarked(CardFor(cards, key).value, c)
    ensures var after := Step(cards, op);
      && Good(after) && CardFor(after, key).Some?
      && Remarked(CardFor(after, key).value, LastComment([op], key, c))
      && GetText(CardFor(after, key).value) == LastNumber([op], key, GetText(CardFor(cards, key).value))
  {
    hide Good, Legal, Step, CardFor, Remarked, GetText, LastComment, LastNumber, Key8, FoldText;
    OneOp(op, key, c, GetText(CardFor(cards, key).value));
    if !SameKey(Key8(key), Key8(op.key)) {
      OthersKeepTheirCard(cards, op, key);
    } else {
      SameFind(cards, key, op.key);
      OwnStep(cards, op, c);
      SameFind(Step(cards, op), key, op.key);
    }
  }

  lemma SameFind(cards: seq<string>, key: string, other: string)
    requires AllLines(cards) && SameKey(Key8(key), Key8(other))
    ensures CardFor(cards, key) == CardFor(cards, other)
  {
    FindFolds(cards, Key8(key), Key8(other), 0);
  }

  lemma {:induction false} FindFolds(cards: seq<string>, key: string, other: string, from: nat)
    requires AllLines(cards) && from <= |cards| && SameKey(key, other)
    ensures FindFrom(cards, key, from) == FindFrom(cards, other, from)
    decreases |cards| - from
  {
    if from < |cards| {
      FindFolds(cards, key, other, from + 1);
    }
  }

  /** A number put or a comment put on the operation's own keyword. */
  lemma OwnStep(cards: seq<string>, op: Op, c: Option<string>)
    requires Good(cards) && Legal(cards, op)
    requires op.PutNumber? || (op.PutComment? && LegalComment(op.comment))
    requires CardFor(cards, op.key).Some? && Remarked(CardFor(cards, op.key).value, c)
    ensures var line, after := CardFor(cards, op.key).value, Step(cards, op);
      && Good(after) && CardFor(after, op.key).Some?
      && var card := CardFor(after, op.key).value;
         && Remarked(card, if op.PutComment? then Some(op.comment) else c)
         && GetText(card) == if op.PutNumber? then DropMinusZero(op.value) else GetText(line)
  {
    var line := CardFor(cards, op.key).value;
    StepOnLines(cards, op);
    CardIsLookup(Step(cards, op), op.key);
    FindIsLookup(cards, op.key);
    GoodCard(cards, Find(cards, op.key).value);
    hide Good, Lines, Step, Remarked, GetText, PutLine, ComLine, OldComment, LegalComment;
    if op.PutNumber? {
      NumberPutOnCard(line, Key8(op.key), op.value, c);
    } else {
      CommentPutOnCard(line, op.comment, c);
    }
  }

  /** Over any legal run in which a number card's own keyword gets number puts and comment puts
      only, whatever happens to other keywords: the card shows the last number put, and holds
      the last comment put whole. */
  lemma {:induction false} NumbersAndCommentsInRuns(cards: seq<string>, ops: seq<Op>, key: string, c: Option<string>)
    requires Good(cards) && LegalRun(cards, ops) && NumberOps(ops, key)
    requires CardFor(cards, key).Some? && Remarked(CardFor(cards, key).value, c)
    ensures var after := Run(cards, ops);
      && Good(after) && CardFor(after, key).Some?
      && Remarked(CardFor(after, key).value, LastComment(ops, key, c))
      && Get(after, key) == Some(LastNumber(ops, key, GetText(CardFor(cards, key).value)))
    decreases |ops|
  {
    hide Good, Legal, Step, CardFor, Remarked, GetText, LastComment, LastNumber, Key8, FoldText, LegalComment;
    if ops == [] {
      NoOps(key, c, GetText(CardFor(cards, key).value));
    } else {
      RunSplits(ops, key, c, GetText(CardFor(cards, key).value));
      StepOnCard(cards, ops[0], key, c);
      NumbersAndCommentsInRuns(Step(cards, ops[0]), ops[1..], key, LastComment([ops[0]], key, c));
    }
    GetIsCardText(Run(cards, ops), key);
  }

  /** A number put on a keyword that had no card leaves a number card without a comment. */
  lemma FirstNumber(cards: seq<string>, key: string, v: string)
    requires Good(cards) && Legal(cards, PutNumber(key, v)) && CardFor(cards, key).None?
    ensures var after := Step(cards, PutNumber(key, v));
      && Good(after) && CardFor(after, key) == Some(PutLine(Key8(key), v, ""))
      && Remarked(CardFor(after, key).value, None) && GetText(CardFor(after, key).value) == DropMinusZero(v)
  {
    StepOnLines(cards, PutNumber(key, v));
    CardIsLookup(Step(cards, PutNumber(key, v)), key);
    PutNumberCard(Key8(key), v, "");
    BlankBehindNumber(Key8(key), v);
    hide Good, Lines, Step, Card, NumberCard, OldComment, GetText, Find, LegalKey, NumberText;
  }

  lemma BlankBehindNumber(key: string, v: string)
    requires LegalKey(key) && NumberText(v)
    ensures Fits(v, "") && OldComment(PutLine(key, v, "")) == ""
  {
    PutNumberCard(key, v, "");
    PutLineNumber(key, v, "");
    var line := PutLine(key, v, "");
    hide PutLine;
    SlashOfNumberCard(line);
  }

  lemma GetIsCardText(cards: seq<string>, key: string)
    requires AllLines(cards)
    ensures Get(cards, key) == if CardFor(cards, key).Some? then Some(GetText(CardFor(cards, key).value)) else None
  {
    hide GetText, Find;
  }

  lemma NoOps(key: string, c: Option<string>, text: string)
    ensures LastComment([], key, c) == c && LastNumber([], key, text) == text
  {
  }

  lemma RunSplits(ops: seq<Op>, key: string, c: Option<string>, text: string)
    requires ops != []
    ensures LastComment(ops, key, c) == LastComment(ops[1..], key, LastComment([ops[0]], key, c))
    ensures LastNumber(ops, key, text) == LastNumber(ops[1..], key, LastNumber([ops[0]], key, text))
  {
    OneOp(ops[0], key, c, text);
    hide Key8, FoldText, SameKey;
  }
}
