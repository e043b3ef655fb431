/** What a user of the status store relies on, over every legal run. */
module StoreLaws {
  import opened CText
  import opened Search
  import opened Cards
  import opened Entries
  import opened Store
  import opened Layout
  import opened Numbers
  import opened StatusBuffer

  /** A cleared store is a good store with one card. */
  lemma ClearedStore(n: int)
    requires -INT_MAX - 1 <= n <= INT_MAX
    ensures Good(WithInstance([], n))
    ensures View(WithInstance([], n)) == map[INSTANCE := IntText(n)]
    ensures Order(Listing(WithInstance([], n))) == [INSTANCE]
  {
    InstanceIsLegal([], n);
    assert Good([]) && View([]) == map[] && Order(Listing([])) == [];
    assert FoldText(Key8(INSTANCE)) == INSTANCE;
    IntTextIsNumber(n);
    hide Good, View, Order, Listing, Legal;
    PutNumberStep([], INSTANCE, IntText(n));
  }

  /** From a cleared store, any legal run of puts, comment puts and deletes leaves legal cards
      with keywords distinct ignoring case, is the same run on a map, and keeps the order in
      which keywords were first put. A get sees exactly the map. */
  lemma EveryRunIsAMapRun(n: int, ops: seq<Op>, key: string)
    requires -INT_MAX - 1 <= n <= INT_MAX
    requires LegalRun(WithInstance([], n), ops)
    ensures var cards := Run(WithInstance([], n), ops);
      var contents := MapRun(map[INSTANCE := IntText(n)], ops);
      var name := FoldText(Key8(key));
      && Good(cards)
      && View(cards) == contents
      && Order(Listing(cards)) == OrderRun([INSTANCE], ops)
      && Get(cards, key) == if name in contents then Some(contents[name]) else None
  {
    ClearedStore(n);
    hide Good, View, Get, Order, Listing, LegalRun, Run, MapRun, OrderRun, WithInstance;
    RunRefinesMap(WithInstance([], n), ops);
    GetIsLookup(Run(WithInstance([], n), ops), key);
  }

  /** One operation on the buffer is the same operation on the list. */
  method Perform(st: Status, op: Op)
    requires st.Valid() && Good(st.cards) && Legal(st.cards, op)
    modifies st, st.buf
    ensures st.Valid() && Good(st.cards) && st.cards == Step(old(st.cards), op)
  {
    StepRefines(st.cards, op);
    match op
    case PutText(key, text) =>
      var rc := st.HPutS(key, text);
    case PutNumber(key, value) =>
      PutNumberStep(st.cards, key, value);
      var rc := st.HPutC(key, value);
    case PutComment(key, comment) =>
      var rc := st.HPutCom(key, comment);
    case Del(key) =>
      var rc := st.HDel(key);
  }

  /** Any legal run of operations on the buffer leaves it holding exactly the cards of that run
      on the list. */
  method PerformAll(st: Status, ops: seq<Op>)
    requires st.Valid() && Good(st.cards) && LegalRun(st.cards, ops)
    modifies st, st.buf
    ensures st.Valid() && Good(st.cards) && st.cards == Run(old(st.cards), ops)
    decreases |ops|
  {
    hide Good, Legal, Step;
    if ops != [] {
      Perform(st, ops[0]);
      PerformAll(st, ops[1..]);
    }
  }

  // ------------------------------------------------------------------ single steps, read back

  /** hgets after hputs: the cleaned text; every other keyword, prefix and extension of this
      one included, reads as before. */
  lemma TextRoundTrip(cards: seq<string>, key: string, text: string, other: string)
    requires Good(cards) && Legal(cards, PutText(key, text))
    ensures var after := Put(cards, key, Quoted(text));
      && Good(after)
      && Get(after, key) == Some(Clean(text))
      && (!SameKey(Key8(other), Key8(key)) ==> Get(after, other) == Get(cards, other))
  {
    PutTextStep(cards, key, text);
    var after := Put(cards, key, Quoted(text));
    hide Good, View, Get, Put, Legal, Clean, FoldText, Order, Listing;
    GetIsLookup(after, key);
    GetIsLookup(after, other);
    GetIsLookup(cards, other);
  }

  /** `r` is `t` without the blanks around it. */
  ghost predicate IsStripped(t: string, r: string) {
    && |r| <= |t|
    && (r != "" ==> r[0] != BLANK && r[|r| - 1] != BLANK)
    && exists a: nat :: IsMiddle(t, r, a)
  }

  ghost predicate IsMiddle(t: string, r: string, a: nat) {
    && a + |r| <= |t| && t[a..a + |r|] == r
    && BlankColumns(t, 0, a) && BlankColumns(t, a + |r|, |t|)
  }

  lemma TrimStrips(t: string)
    requires forall i | 0 <= i < |t| :: t[i] != '\r'
    ensures IsStripped(t, Trim(t))
  {
    var lead := TrimLead(t);
    var r := TrimTail(lead);
    hide TrimLead, TrimTail;
    var a := |t| - |lead|;
    assert r == lead[..|r|] == t[a..a + |r|];
    assert IsMiddle(t, r, a) by {
      forall i | a + |r| <= i < |t|
        ensures t[i] == BLANK
      {
        assert t[i] == lead[i - a];
      }
    }
    assert r != "" ==> r[0] == lead[0];
  }

  /** The text read back is the first 67 characters without the blanks around them, except
      that a bare -0 becomes 0. */
  lemma CleanMeans(text: string)
    requires PlainText(text)
    ensures exists r: string :: IsStripped(Cut(text, TEXT_WIDTH), r) && Clean(text) == if r == "-0" then "0" else r
  {
    TrimStrips(Cut(text, TEXT_WIDTH));
  }

  /** The integer getters after the integer puts, and the narrower getters after the wider. */
  lemma NumberRoundTrip(cards: seq<string>, key: string, n: int, other: string)
    requires Good(cards) && -LLONG_MAX - 1 <= n <= ULLONG_MAX
    requires Legal(cards, PutNumber(key, IntText(n)))
    ensures Fits(IntText(n), CommentFor(cards, key))
    ensures var after := Put(cards, key, IntText(n));
      && Good(after)
      && Get(after, key) == Some(IntText(n))
      && (n <= LLONG_MAX ==> ReadI8(Get(after, key).value) == n)
      && (0 <= n ==> ReadU8(Get(after, key).value) == n)
      && ReadI4(Get(after, key).value) == Clamp(n, -INT_MAX - 1, INT_MAX)
      && ReadU4(Get(after, key).value) == Clamp(n, 0, UINT_MAX)
      && ReadI2(Get(after, key).value) == Clamp(n, -SHRT_MAX - 1, SHRT_MAX)
      && (!SameKey(Key8(other), Key8(key)) ==> Get(after, other) == Get(cards, other))
  {
    IntTextIsNumber(n);
    PutNumberStep(cards, key, IntText(n));
    LongRoundTrip(n);
    ShorterRoundTrip(n);
    var after := Put(cards, key, IntText(n));
    hide Good, View, Get, Put, Legal, FoldText, Order, Listing, IntText, ReadI8, ReadU8, ReadI4, ReadU4, ReadI2, DropMinusZero;
    GetIsLookup(after, key);
    GetIsLookup(after, other);
    GetIsLookup(cards, other);
  }

  lemma DeleteMeans(cards: seq<string>, key: string)
    requires Good(cards)
    ensures Good(Delete(cards, key)) && View(Delete(cards, key)) == View(cards) - {FoldText(Key8(key))}
  {
    DeleteStep(cards, key);
    hide Good, View, Delete, FoldText, Order, Listing;
  }

  /** After hdel the keyword is gone, and nothing else is. */
  lemma DeleteRemovesOne(cards: seq<string>, key: string, other: string)
    requires Good(cards)
    ensures var after := Delete(cards, key);
      && Good(after) && Get(after, key) == None
      && |after| == |cards| - (if Get(cards, key).Some? then 1 else 0)
      && (!SameKey(Key8(other), Key8(key)) ==> Get(after, other) == Get(cards, other))
  {
    var after := Delete(cards, key);
    assert |after| == |cards| - (if Get(cards, key).Some? then 1 else 0);
    DeleteMeans(cards, key);
    hide Good, View, Get, Delete, FoldText, Order, Listing;
    GetIsLookup(after, key);
    GetIsLookup(after, other);
    GetIsLookup(cards, other);
  }

  // ------------------------------------------------------------------ where writes leave the card

  /** A text can be put over a commented card exactly when it is at most 63 characters long:
      a longer one leaves hputc a negative room for the comment. */
  lemma TextFitsOverComment(text: string, comment: string)
    ensures Fits(Quoted(text), comment) <==> comment == "" || |text| <= 63
  {
  }

  // ------------------------------------------------------------------ a keyword that starts with END

  /** A store in which hashpipe_find_end does not find END: one number put on the keyword
      ENDTIME. */
  lemma EndtimeHidesEnd() returns (s: seq<char>, cards: seq<string>)
    ensures Good([]) && Legal([], PutNumber("ENDTIME", "1")) && cards == Step([], PutNumber("ENDTIME", "1"))
    ensures Good(cards) && Represents(s, cards) && FirstEnd(s, 0) && LINE * |cards| == LINE
  {
    EndtimeIsLegal();
    PutNumberCard("ENDTIME", "1", "");
    var line := PutLine("ENDTIME", "1", "");
    cards := [line];
    EndtimeStep(line);
    s := OneCard(line);
    hide PutLine, Good, Card, Represents, LineAt;
    StartsWithKey(line, "ENDTIME");
    FirstIsEnd(s, cards);
  }

  lemma FirstIsEnd(s: seq<char>, cards: seq<string>)
    requires Represents(s, cards) && |cards| == 1 && "END" <= cards[0]
    ensures FirstEnd(s, 0)
  {
    assert LineAt(s, 0) == cards[0];
  }

  lemma EndtimeStep(line: string)
    requires LegalKey("ENDTIME") && Key8("ENDTIME") == "ENDTIME" && NumberText("1")
    requires Fits("1", "") && line == PutLine("ENDTIME", "1", "")
    ensures Good([]) && Legal([], PutNumber("ENDTIME", "1"))
    ensures Step([], PutNumber("ENDTIME", "1")) == [line] && Good([line])
  {
    hide PutLine, LegalKey, Fits;
    assert Good([]) && Legal([], PutNumber("ENDTIME", "1"));
    assert CommentFor([], "ENDTIME") == "";
    assert Put([], "ENDTIME", "1") == [line];
    hide Good, Legal, Put;
    PutNumberStep([], "ENDTIME", "1");
  }

  /** A buffer that holds one card. */
  lemma OneCard(line: string) returns (s: seq<char>)
    requires Card(line)
    ensures Represents(s, [line])
  {
    assert |line| == LINE;
    hide Card;
    var empty := END_LINE + Repeat(NUL, TOTAL_SIZE - LINE);
    assert LineAt(empty, 0) == END_LINE;
    EmptyStore(empty);
    hide Splice, Repeat, Represents, LineAt;
    Appended(empty, [], line);
    s := Splice(Splice(empty, LINE, END_LINE), 0, line);
    assert [] + [line] == [line];
  }

  lemma EndtimeIsLegal()
    ensures LegalKey("ENDTIME") && Key8("ENDTIME") == "ENDTIME" && NumberText("1")
  {
    assert |FoldText("ENDTIME")| == 7;
  }

  lemma StartsWithKey(line: string, key: string)
    requires |line| == LINE && KeyOf(line) == key && "END" <= key
    ensures "END" <= line
  {
  }

  // ------------------------------------------------------------------ numbers and comments

  /** On a number card, value and comment are independent. After hputcom the value reads as
      before; after any number of integer puts the comment text is still there whole and the
      last number reads back; a second hputcom changes the comment only. */
  lemma NumbersAndComments(line: string, key: string, c: string, values: seq<string>, d: string)
    requires Card(line) && NumberCard(line) && line[8] == '=' && LegalKey(key)
    requires LegalComment(c) && LegalComment(d) && AllNumbers(values)
    ensures CommentFits(line, c) && ComLine(line, c).Some? && AllFit(values)
    ensures var commented := ComLine(line, c).value;
      var after := Reput(commented, key, values);
      && Commented(commented, c) && GetText(commented) == GetText(line)
      && Commented(after, c)
      && (values != [] ==> Shows(after, key, values[|values| - 1]))
      && (values != [] ==> CommentFits(after, d) && ComLine(after, d).Some?)
      && (values != [] ==> Commented(ComLine(after, d).value, d) && GetText(ComLine(after, d).value) == GetText(after))
  {
    ComKeepsNumber(line, c);
    ComStoresComment(line, c);
    var commented := ComLine(line, c).value;
    NumberPutsKeepComment(commented, key, values, c);
    var after := Reput(commented, key, values);
    if values != [] {
      ReputAssigned(commented, key, values);
      ComKeepsNumber(after, d);
      ComStoresComment(after, d);
    }
  }

  lemma {:induction false} ReputAssigned(line: string, key: string, values: seq<string>)
    requires 1 <= |key| <= 8 && |line| == LINE && AllFit(values) && values != []
    ensures Reput(line, key, values)[8] == '='
    decreases |values|
  {
    var next := Next(line, key, values[0]);
    PutLineNumber(key, values[0], OldComment(line));
    assert next[8] == '=';
    if |values| > 1 {
      ReputAssigned(next, key, values[1..]);
    }
  }
}
