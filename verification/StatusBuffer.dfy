/** The status buffer: the fixed character array, edited in place by hput.c, read by hget.c,
    created by hashpipe_status.c. */
module StatusBuffer {
  import opened CText
  import opened Search
  import opened Cards
  import opened Extents
  import opened Store
  import opened Layout
  import opened Numbers

  /** strsrch with a one-character pattern, from position `from` on. */
  method FindChar(line: string, c: char, from: nat) returns (r: Option<nat>)
    requires from <= |line|
    ensures r == IndexOf(line, c, from)
  {
    var rest := line[from..];
    var loc := StrNSearch(rest, [c], |rest|);
    match loc
    case None =>
      forall j | from <= j < |line|
        ensures line[j] != c
      {
        assert !Occurs(rest, j - from, [c]);
        assert rest[j - from] == line[j];
      }
      IndexOfNone(line, c, from);
      return None;
    case Some(at) =>
      forall j | from <= j < from + at
        ensures line[j] != c
      {
        assert !Occurs(rest, j - from, [c]);
        assert rest[j - from] == line[j];
      }
      assert line[from + at] == rest[at] == [c][0];
      IndexOfIs(line, c, from, from + at);
      return Some(from + at);
  }

  /** Stepping back over blanks, as the readers do when a closing quote is missing. */
  method StepBack(line: string, from: nat) returns (r: nat)
    requires from < |line|
    requires exists i :: 0 <= i <= from && line[i] != BLANK
    ensures r == BackOver(line, from)
  {
    r := from;
    while line[r] == BLANK
      invariant r <= from
      invariant exists i :: 0 <= i <= r && line[i] != BLANK
      invariant BackOver(line, from) == BackOver(line, r)
      decreases r
    {
      r := r - 1;
    }
    r := r + 1;
  }

  /** The quote handling that hgetc_thread_safe and hputcom share: where a text quoted with
      `mark` closes. */
  method FindClosing(line: string, mark: char) returns (q2: Option<nat>)
    requires |line| == LINE && mark != BLANK
    ensures q2 == Closing(line, mark)
  {
    var q1 := FindChar(line, mark, 0);
    if q1.None? {
      return None;
    }
    var c1 := FindChar(line, SLASH, 0);
    if c1.Some? && c1.value <= q1.value {
      return None;
    }
    q2 := FindChar(line, mark, q1.value + 1);
    if q2.None? {
      var from := if c1.Some? then c1.value - 1 else LINE - 1;
      assert line[q1.value] != BLANK;
      var back := StepBack(line, from);
      q2 := Some(back);
    }
  }

  /** Where the value of a card lies. */
  method FindSpan(card: string) returns (v1: nat, v2: nat)
    requires |card| == LINE
    ensures (v1, v2) == ValueSpan(card)
  {
    var single := FindChar(card, QUOTE, 0);
    var mark := if single.Some? then QUOTE else DQUOTE;
    var q1 := FindChar(card, mark, 0);
    var q2 := FindClosing(card, mark);
    if q2.Some? {
      v1, v2 := q1.value + 1, q2.value;
    } else {
      var eq := FindChar(card, '=', 0);
      v1 := if eq.Some? then eq.value + 1 else 9;
      var c1 := FindChar(card, SLASH, 0);
      v2 := if c1.Some? then c1.value else LINE - 1;
    }
  }

  /** The part of hgetc_thread_safe behind the search: the value on a card. The local line is
      cut and trimmed in place, then copied up to its NUL. */
  method ParseCard(card: string) returns (value: string)
    requires |card| == LINE && NUL !in card
    ensures value == GetText(card)
  {
    var v1, v2 := FindSpan(card);
    var line := new char[LINE + 20](_ => NUL);
    forall i | 0 <= i < LINE {
      line[i] := card[i];
    }
    assert line[..LINE] == card;
    hide ValueSpan, Trim;
    if v1 <= v2 {
      value := TrimInPlace(line, card, v1, v2);
    } else {
      value := CopyAfterCut(line, card, v1, v2);
    }
    if value == "-0" {
      value := value[1..];
    }
  }

  /** Skip leading blanks up to `v2`. */
  method SkipBlanks(card: string, v1: nat, v2: nat) returns (from: nat)
    requires v1 <= v2 <= |card|
    ensures v1 <= from <= v2 && card[from..v2] == TrimLead(card[v1..v2])
  {
    hide TrimLead;
    ghost var span := card[v1..v2];
    from := v1;
    while from < v2 && card[from] == BLANK
      invariant v1 <= from <= v2
      invariant forall i | 0 <= i < from - v1 :: span[i] == BLANK
    {
      assert span[from - v1] == card[from];
      from := from + 1;
    }
    TrimLeadIs(span, from - v1);
  }

  /** Put NULs over trailing blanks and carriage returns; the character at `from` stays. */
  method CutTail(line: array<char>, ghost card: string, from: nat, v2: nat) returns (end: nat)
    requires from <= v2 <= |card| && v2 < line.Length
    requires line[..v2] == card[..v2] && line[v2] == NUL
    modifies line
    ensures from <= end <= v2 && card[from..end] == TrimTail(card[from..v2])
    ensures line[..end] == card[..end] && line[end] == NUL
  {
    end := v2;
    while end > from + 1 && (line[end - 1] == BLANK || line[end - 1] == '\r')
      invariant from <= end <= v2 && (end == from ==> v2 == from)
      invariant line[..end] == card[..end] && line[end] == NUL
      invariant forall i | end <= i < v2 :: card[i] == BLANK || card[i] == '\r'
    {
      assert line[..end][end - 1] == card[end - 1];
      line[end - 1] := NUL;
      end := end - 1;
    }
    assert end > 0 ==> line[..end][end - 1] == card[end - 1];
    TrimTailIs(card[from..v2], end - from);
  }

  /** Skip leading blanks, put a NUL at `v2`, put NULs over trailing blanks, copy what is left. */
  method TrimInPlace(line: array<char>, card: string, v1: nat, v2: nat) returns (value: string)
    requires |card| == LINE && NUL !in card && v1 <= v2 <= LINE
    requires line.Length == LINE + 20 && line[..LINE] == card
    modifies line
    ensures value == Trim(card[v1..v2])
  {
    hide TrimLead, TrimTail;
    var from := SkipBlanks(card, v1, v2);
    ghost var before := line[..];
    assert before[..v2] == card[..v2];
    line[v2] := NUL;
    assert line[..v2] == before[..v2];
    var end := CutTail(line, card, from, v2);
    value := CopyPrefix(line, card, from, end);
    assert card[from..v2] == TrimLead(card[v1..v2]);
  }

  /** With the cut in front of the value, nothing is trimmed. */
  method CopyAfterCut(line: array<char>, ghost card: string, v1: nat, v2: nat) returns (value: string)
    requires |card| == LINE && NUL !in card && v2 < v1 <= LINE
    requires line.Length == LINE + 20 && line[..LINE] == card && line[LINE] == NUL
    modifies line
    ensures value == card[v1..]
  {
    line[v2] := NUL;
    assert line[v1..LINE] == card[v1..];
    value := CopyOut(line, v1, LINE);
  }

  method CopyPrefix(line: array<char>, ghost card: string, from: nat, ghost end: nat) returns (value: string)
    requires from <= end < line.Length && end <= |card| && NUL !in card
    requires line[..end] == card[..end] && line[end] == NUL
    ensures value == card[from..end]
  {
    forall i | from <= i < end
      ensures line[i] == card[i] && line[i] != NUL
    {
      assert line[..end][i] == card[..end][i];
    }
    value := CopyOut(line, from, end);
  }

  /** strcpy out of a buffer: everything up to the NUL. */
  method CopyOut(line: array<char>, from: nat, ghost end: nat) returns (value: string)
    requires from <= end < line.Length && line[end] == NUL
    requires forall i | from <= i < end :: line[i] != NUL
    ensures value == line[from..end]
  {
    value := "";
    var i := from;
    while line[i] != NUL
      invariant from <= i <= end
      invariant value == line[from..i]
      decreases end - i
    {
      value := value + [line[i]];
      i := i + 1;
    }
  }

  /** hputc's search for the slash of an old comment. */
  method FindOldSlash(line: string) returns (c1: Option<nat>)
    requires |line| == LINE
    ensures c1 == CommentSlash(line)
  {
    var q1 := IndexOf(line, QUOTE, 0);
    if q1.Some? {
      var q2 := IndexOf(line, QUOTE, q1.value + 1);
      if q2.Some? {
        c1 := IndexOf(line, SLASH, q2.value);
      } else {
        c1 := IndexOf(line, SLASH, LINE - 1);
      }
    } else {
      c1 := IndexOf(line, SLASH, 0);
    }
  }

  /** The loop that discounts trailing blanks. */
  method CountComment(newcom: string) returns (lcom: nat)
    ensures lcom == KeptLength(newcom, |newcom|)
  {
    lcom := |newcom|;
    var vp: int := lcom - 1;
    while vp > 0 && newcom[vp - 1] == BLANK
      invariant vp == lcom - 1 && -1 <= vp < |newcom|
      invariant KeptLength(newcom, |newcom|) == KeptLength(newcom, lcom)
      decreases vp
    {
      vp := vp - 1;
      lcom := lcom - 1;
    }
  }

  /** hputc's reading of an old card: the comment it keeps, in a local buffer. */
  method TakeComment(line: string) returns (newcom: string, lcom: nat)
    requires |line| == LINE
    requires CommentSlash(line).Some? ==> CommentSlash(line).value + 2 <= LINE
    ensures lcom <= |newcom| && newcom[..lcom] == OldComment(line)
  {
    hide CommentSlash, KeptLength;
    var c1 := FindOldSlash(line);
    if c1.Some? {
      newcom := line[c1.value + 2..];
      lcom := CountComment(newcom);
    } else {
      newcom := "";
      lcom := 0;
    }
  }

  /** hputs quotes its text, cut to 67 characters and padded to 8. */
  method QuoteText(cval: string) returns (value: string)
    ensures value == Quoted(cval)
  {
    var lcval := |cval|;
    if lcval > TEXT_WIDTH {
      lcval := TEXT_WIDTH;
    }
    value := [QUOTE] + cval[..lcval];
    var i := lcval;
    while i < 8
      invariant lcval <= i && (i <= 8 || i == lcval)
      invariant value == [QUOTE] + cval[..lcval] + Blanks(i - lcval)
    {
      value := value + [BLANK];
      i := i + 1;
    }
    value := value + [QUOTE];
  }

  /** hputcom's choice of the column for the blank before the slash. */
  method FindCommentStart(line: string) returns (c0: int)
    requires |line| == LINE
    ensures c0 == CommentStart(line)
  {
    var c1 := FindChar(line, SLASH, 0);
    var q2 := FindClosing(line, QUOTE);
    if q2.Some? && c1.Some? && c1.value < q2.value {
      c1 := FindChar(line, SLASH, q2.value);
    }
    if c1.Some? {
      c0 := c1.value - 1;
    } else if q2.None? || q2.value < VALUE_END {
      c0 := VALUE_END;
    } else {
      c0 := q2.value + 1;
    }
  }

  /** No record starts with END: what hashpipe_status_chkinit takes for an unused buffer. */
  ghost predicate NoEnd(s: seq<char>)
    requires |s| == TOTAL_SIZE
  {
    forall i: nat | i < CAPACITY :: !("END" <= LineAt(s, i))
  }

  /** The first record that starts with END is at `at`. */
  ghost predicate FirstEnd(s: seq<char>, at: nat)
    requires |s| == TOTAL_SIZE
  {
    && at % LINE == 0 && at < TOTAL_SIZE
    && "END" <= LineAt(s, at / LINE)
    && forall i: nat | i < at / LINE :: !("END" <= LineAt(s, i))
  }

  /** hashpipe_find_end compares three characters only: it points at the END line exactly when
      no keyword of the store starts with END. */
  lemma FindEndIsEnd(s: seq<char>, cards: seq<string>, at: nat)
    requires Represents(s, cards) && FirstEnd(s, at)
    ensures at == LINE * |cards| <==> forall i | 0 <= i < |cards| :: !("END" <= cards[i])
  {
    var e := |cards|;
    assert "END" <= LineAt(s, e);
    var n := at / LINE;
    assert at == LINE * n && n <= e;
    if n < e {
      assert "END" <= cards[n];
    } else {
      forall i | 0 <= i < e
        ensures !("END" <= cards[i])
      {
        assert LineAt(s, i) == cards[i];
      }
    }
  }

  /** The list after INSTANCE is put. */
  function WithInstance(cards: seq<string>, n: int): seq<string>
    requires AllLines(cards) && -INT_MAX - 1 <= n <= INT_MAX
  {
    IntTextIsNumber(n);
    Put(cards, INSTANCE, IntText(n))
  }

  const INSTANCE: string := "INSTANCE"

  class Status {
    /** The shared buffer. */
    const buf: array<char>
    /** The cards it holds, in order. */
    ghost var cards: seq<string>

    ghost predicate Valid()
      reads this, buf
    {
      Represents(buf[..], cards)
    }

    // ---------------------------------------------------------------- writing characters

    method Fill(from: nat, upto: nat, c: char)
      requires from <= upto <= buf.Length
      modifies buf
      ensures buf[..] == Splice(old(buf[..]), from, Repeat(c, upto - from))
    {
      var vp := from;
      while vp < upto
        invariant from <= vp <= upto
        invariant forall i | 0 <= i < buf.Length :: buf[i] == if from <= i < vp then c else old(buf[i])
      {
        buf[vp] := c;
        vp := vp + 1;
      }
    }

    method SetChar(at: nat, c: char)
      requires at < buf.Length
      modifies buf
      ensures buf[..] == Splice(old(buf[..]), at, [c])
    {
      buf[at] := c;
    }

    /** strncpy of `n` characters of a text that has at least as many. */
    method Copy(at: nat, text: string, n: nat)
      requires n <= |text| && at + n <= buf.Length
      modifies buf
      ensures buf[..] == Splice(old(buf[..]), at, text[..n])
    {
      var i := 0;
      while i < n
        invariant i <= n
        invariant forall j | 0 <= j < buf.Length :: buf[j] == if at <= j < at + i then text[j - at] else old(buf[j])
      {
        buf[at + i] := text[i];
        i := i + 1;
      }
    }

    /** strncpy of one line of the buffer onto another, which it does not overlap. */
    method CopyLine(to: nat, from: nat)
      requires to + LINE <= buf.Length && from + LINE <= buf.Length
      requires to + LINE <= from || from + LINE <= to
      modifies buf
      ensures buf[..] == Splice(old(buf[..]), to, StrncpyArea(old(buf[from..from + LINE])))
    {
      hide StrncpyArea, Splice;
      var area := buf[from..from + LINE];
      ghost var copy := StrncpyArea(area);
      var ended := false;
      var i := 0;
      while i < LINE
        invariant i <= LINE
        invariant ended <==> NUL in area[..i]
        invariant forall j | 0 <= j < buf.Length :: buf[j] == if to <= j < to + i then copy[j - to] else old(buf[j])
      {
        assert area[..i + 1] == area[..i] + [area[i]];
        ended := ended || area[i] == NUL;
        buf[to + i] := if ended then NUL else area[i];
        i := i + 1;
      }
    }

    /** The same, line by line, when the source line holds no NUL. */
    method CopyCard(to: nat, from: nat, ghost toLine: nat, ghost fromLine: nat)
      requires buf.Length == TOTAL_SIZE && toLine < CAPACITY && fromLine < CAPACITY && toLine != fromLine
      requires to == LINE * toLine && from == LINE * fromLine
      requires NUL !in LineAt(buf[..], fromLine)
      modifies buf
      ensures forall i: nat {:trigger LineAt(buf[..], i)} | i < CAPACITY ::
        LineAt(buf[..], i) == if i == toLine then LineAt(old(buf[..]), fromLine) else LineAt(old(buf[..]), i)
    {
      hide LineAt, Splice, StrncpyArea;
      ghost var s := buf[..];
      assert s[from..from + LINE] == buf[from..from + LINE];
      CopyLine(to, from);
      LineCopied(s, buf[..], toLine, fromLine);
    }

    // ---------------------------------------------------------------- searching

    method SearchKey(key: string) returns (r: Option<nat>)
      requires Valid() && LegalKey(Key8(key))
      ensures match Find(cards, key)
        case None => r == None
        case Some(i) => r == Some(LINE * i)
    {
      HasNul(buf[..], cards);
      r := KSearch(buf[..], key);
      SearchFindsCard(buf[..], cards, key, r);
    }

    method SearchEnd() returns (r: Option<nat>)
      requires Valid()
      ensures r == Some(LINE * |cards|)
    {
      HasNul(buf[..], cards);
      r := KSearch(buf[..], "END");
      assert Key8("END") == "END";
      SearchFindsEnd(buf[..], cards, r);
    }

    // ---------------------------------------------------------------- put

    /** The comment part of hputc: blank, slash, blank, blanks, text. */
    method WriteComment(v1: nat, lc: nat, newcom: string, lcom0: nat, ghost s: seq<char>, ghost line: string)
      requires v1 + LINE <= buf.Length && lc + 3 <= LINE && 0 < lcom0 <= |newcom|
      requires |line| == LINE && |s| == buf.Length && buf[..] == Splice(s, v1, line)
      modifies buf
      ensures buf[..] == Splice(s, v1, CommentWrites(line, lc, newcom[..lcom0]))
    {
      hide Splice;
      var lcom: int := lcom0;
      if lc + 2 + lcom > LINE {
        lcom := 77 - lc;
      }
      var vp := v1 + lc;
      Copy(vp, " / ", 3);
      assert " / "[..3] == " / ";
      SpliceInLine(s, v1, line, lc, " / ");
      ghost var marked := Splice(line, lc, " / ");
      vp := vp + 3;
      var lblank := v1 + LINE - vp;
      Fill(vp, vp + lblank, BLANK);
      SpliceInLine(s, v1, marked, lc + 3, Blanks(lblank));
      ghost var cleared := Splice(marked, lc + 3, Blanks(lblank));
      if lcom > lblank {
        lcom := lblank;
      }
      assert lcom == PutCount(lc, lcom0);
      Copy(vp, newcom, lcom);
      SpliceInLine(s, v1, cleared, lc + 3, newcom[..lcom]);
      assert newcom[..lcom] == Cut(newcom[..lcom0], LINE - 3 - lc);
    }

    /** hputc clears the card and writes keyword, `=` and blank. */
    method WriteKey(v1: nat, key: string)
      requires v1 + LINE <= buf.Length && |key| <= 8
      modifies buf
      ensures buf[..] == Splice(old(buf[..]), v1, Splice(Splice(Splice(Blanks(LINE), 0, key), 8, "="), 9, " "))
    {
      hide Splice, Blanks;
      ghost var s := buf[..];
      Fill(v1, v1 + LINE, BLANK);
      assert Repeat(BLANK, LINE) == Blanks(LINE);
      Copy(v1, key, |key|);
      assert key[..|key|] == key;
      SpliceInLine(s, v1, Blanks(LINE), 0, key);
      SetChar(v1 + 8, '=');
      SpliceInLine(s, v1, Splice(Blanks(LINE), 0, key), 8, "=");
      SetChar(v1 + 9, BLANK);
      SpliceInLine(s, v1, Splice(Splice(Blanks(LINE), 0, key), 8, "="), 9, " ");
    }

    /** hputc places the value: behind the blank when quoted, else right-justified to column 33. */
    method WriteValue(v1: nat, value: string, ghost s: seq<char>, ghost line: string) returns (lc: nat)
      requires v1 + LINE <= buf.Length && Fits(value, "")
      requires |line| == LINE && |s| == buf.Length && buf[..] == Splice(s, v1, line)
      modifies buf
      ensures lc == CommentColumn(value)
      ensures buf[..] == Splice(s, v1, if IsQuoted(value) then Splice(line, 10, value)
                                       else Splice(line, VALUE_END - |value|, value))
    {
      hide Splice;
      var lval := |value|;
      assert value[..lval] == value;
      if IsQuoted(value) {
        Copy(v1 + 10, value, lval);
        SpliceInLine(s, v1, line, 10, value);
        lc := if lval + 12 > 33 + 1 then lval + 12 else 33;
      } else {
        Copy(v1 + 33 - lval, value, lval);
        SpliceInLine(s, v1, line, 33 - lval, value);
        lc := 33;
      }
    }

    /** hputc's writes to a card's 80 columns. */
    method WriteCard(v1: nat, key: string, value: string, newcom: string, lcom: nat)
      requires v1 + LINE <= buf.Length && 1 <= |key| <= 8 && lcom <= |newcom|
      requires Fits(value, newcom[..lcom])
      modifies buf
      ensures buf[..] == Splice(old(buf[..]), v1, PutLine(key, value, newcom[..lcom]))
    {
      hide Splice, PutLine, Blanks, CommentWrites;
      ghost var s := buf[..];
      WriteKey(v1, key);
      ghost var line := Splice(Splice(Splice(Blanks(LINE), 0, key), 8, "="), 9, " ");
      var lc := WriteValue(v1, value, s, line);
      line := if IsQuoted(value) then Splice(line, 10, value) else Splice(line, VALUE_END - |value|, value);
      if lcom > 0 {
        WriteComment(v1, lc, newcom, lcom, s, line);
      }
      WrittenIsPutLine(key, value, newcom[..lcom]);
    }

    /** A place for a new card: a blank line above END if there were one, else END moves down
        one line, unless that would leave a header of `lhead` characters. Neither happens: a
        store has no blank lines, and `lhead` is computed from END itself. */
    method MakeRoom(lhead: nat) returns (v1: nat, ok: bool)
      requires Valid() && |cards| + 2 < CAPACITY && lhead == LINE * |cards| + LINE
      modifies buf
      ensures v1 == LINE * |cards| && ok
      ensures buf[..] == Splice(old(buf[..]), LINE * (|cards| + 1), END_LINE)
    {
      ok := true;
      HasNul(buf[..], cards);
      var blank := BlSearch(buf[..], "END");
      if blank.Some? {
        v1 := blank.value;
        NoBlankLine(buf[..], cards, blank);
        assert false;
      } else {
        var ve := SearchEnd();
        var nc := ve.value / LINE * LINE;
        v1 := nc;
        if v1 + LINE > lhead {
          ok := false;
        } else {
          MoveEnd(v1);
        }
      }
    }

    method MoveEnd(v1: nat)
      requires Valid() && |cards| + 2 < CAPACITY && v1 == LINE * |cards|
      modifies buf
      ensures buf[..] == Splice(old(buf[..]), LINE * (|cards| + 1), END_LINE)
    {
      assert buf[v1..v1 + LINE] == LineAt(buf[..], |cards|) == END_LINE;
      hide Represents, Splice, StrncpyArea;
      StrncpyWholeArea(END_LINE);
      CopyLine(v1 + LINE, v1);
    }

    /** gethlength: END's line and everything before it. */
    method HeaderLength() returns (lhead: nat)
      requires Valid()
      ensures lhead == LINE * |cards| + LINE
    {
      var hend := SearchEnd();
      lhead := hend.value + LINE;
    }

    /** The old card at `v1`: its comment. */
    method OldCard(v1: nat, ghost at: nat) returns (newcom: string, lcom: nat)
      requires Valid() && at < |cards| && v1 == LINE * at
      ensures lcom <= |newcom| && newcom[..lcom] == OldComment(cards[at])
    {
      var line := buf[v1..v1 + LINE];
      assert line == LineAt(buf[..], at) == cards[at];
      assert Card(cards[at]);
      OldCommentOfCard(cards[at]);
      hide Card, OldComment, Represents, LineAt;
      newcom, lcom := TakeComment(line);
    }

    /** hputc: replace the keyword's card in place, keeping its comment, or add one before END. */
    method HPutC(keyword: string, value: string) returns (rc: int)
      requires Valid() && LegalKey(Key8(keyword)) && StorableValue(value)
      requires HasRoom(cards, keyword) && Fits(value, CommentFor(cards, keyword))
      modifies this, buf
      ensures Valid() && rc == 0
      ensures cards == Put(old(cards), keyword, value)
    {
      hide PutLine, OldComment, Fits, StorableValue, Splice, LineAt, Card;
      var keyword8 := Key8(keyword);
      assert Key8(keyword8) == keyword8 && 1 <= |keyword8| <= 8;
      assert Find(cards, keyword8) == Find(cards, keyword) && LINE * (|cards| + 2) <= buf.Length;
      hide LegalKey, Find, Represents, Key8;
      ghost var s := buf[..];
      var lhead := HeaderLength();
      var found := SearchKey(keyword8);
      var newcom, lcom, v1 := "", 0, 0;
      var ok := true;
      if found.None? {
        v1, ok := MakeRoom(lhead);
      } else {
        v1 := found.value / LINE * LINE;
        newcom, lcom := OldCard(v1, Find(cards, keyword).value);
      }
      assert newcom[..lcom] == CommentFor(cards, keyword);
      if !ok {
        rc := -1;
      } else {
        WriteCard(v1, keyword8, value, newcom, lcom);
        rc := 0;
      }
      PutLands(s, cards, keyword, value);
      cards := Put(cards, keyword, value);
    }

    /** hputs: quote, cut to 67 characters, pad to 8, quote, put. */
    method HPutS(keyword: string, cval: string) returns (rc: int)
      requires Valid() && Legal(cards, PutText(keyword, cval))
      modifies this, buf
      ensures Valid() && rc == 0
      ensures cards == Put(old(cards), keyword, Quoted(cval))
    {
      var value := QuoteText(cval);
      hide Quoted, PlainText, LegalKey, Put, Fits, Represents, Find;
      rc := HPutC(keyword, value);
    }

    /** hputi4, hputu4, hputi8 and hputu8: print, put. */
    method HPutI(keyword: string, ival: int) returns (rc: int)
      requires -LLONG_MAX - 1 <= ival <= ULLONG_MAX
      requires Valid() && Legal(cards, PutNumber(keyword, IntText(ival)))
      modifies this, buf
      ensures Valid() && rc == 0
      ensures cards == Put(old(cards), keyword, IntText(ival))
    {
      var value := IntText(ival);
      rc := HPutC(keyword, value);
    }

    /** hdel: move every later card and END up one line, and end the text behind the old END. */
    method HDel(keyword: string) returns (rc: int)
      requires Valid() && LegalKey(Key8(keyword))
      modifies this, buf
      ensures Valid()
      ensures cards == Delete(old(cards), keyword)
      ensures rc == if Find(old(cards), keyword).Some? then 1 else 0
    {
      var v1 := SearchKey(keyword);
      if v1.None? {
        return 0;
      }
      var ve := SearchEnd();
      RemoveCard(v1.value, ve.value, Find(cards, keyword).value);
      rc := 1;
    }

    method RemoveCard(v1: nat, ve: nat, ghost at: nat)
      requires Valid() && at < |cards| && v1 == LINE * at && ve == LINE * |cards|
      modifies this, buf
      ensures Valid() && cards == old(cards)[..at] + old(cards)[at + 1..]
    {
      assert LINE * (|cards| + 2) <= TOTAL_SIZE && buf.Length == TOTAL_SIZE;
      hide LineAt, Splice, Represents;
      ghost var s := buf[..];
      ShiftUp(v1, ve, at);
      ghost var t := buf[..];
      SetChar(ve + LINE, NUL);
      DeleteLands(s, t, buf[..], cards, at);
      cards := cards[..at] + cards[at + 1..];
    }

    /** hdel's shifting loop. */
    method ShiftUp(v1: nat, ve: nat, ghost at: nat)
      requires Valid() && at < |cards| && v1 == LINE * at && ve == LINE * |cards|
      modifies buf
      ensures forall i: nat {:trigger LineAt(buf[..], i)} | i < CAPACITY ::
        LineAt(buf[..], i) == if at <= i < |cards| then LineAt(old(buf[..]), i + 1) else LineAt(old(buf[..]), i)
    {
      ghost var s := buf[..];
      var v := v1;
      ghost var j := at;
      hide LineAt;
      while v < ve
        invariant buf.Length == TOTAL_SIZE && v == LINE * j && at <= j <= |cards|
        invariant forall i: nat {:trigger LineAt(buf[..], i)} | i < CAPACITY ::
          LineAt(buf[..], i) == if at <= i < j then LineAt(s, i + 1) else LineAt(s, i)
      {
        NoNulInCards(s, cards, j + 1);
        CopyCard(v, v + LINE, j, j + 1);
        v := v + LINE;
        j := j + 1;
      }
    }

    /** hadd: move the card at line `at`, all later ones and END down one line, and write a
        card with the keyword alone. */
    method HAdd(ghost at: nat, hplace: nat, keyword: string) returns (rc: int)
      requires Valid() && LegalKey(keyword)
      requires at <= |cards| && hplace == LINE * at && |cards| + 2 < CAPACITY
      modifies this, buf
      ensures Valid() && rc == 1
      ensures cards == old(cards)[..at] + [AddLine(LineAt(old(buf[..]), at), keyword)] + old(cards)[at..]
    {
      ghost var s := buf[..];
      var ve := EndFrom(hplace, at);
      ShiftDown(hplace, ve, at);
      ghost var t := buf[..];
      ghost var previous := LineAt(s, at);
      assert LineAt(t, at) == previous;
      WriteAdded(hplace, keyword, at);
      ghost var line := AddLine(previous, keyword);
      LineHasSeparator(s, cards, at);
      AddLineCard(previous, keyword);
      hide LineAt, AddLine, Represents, Card, LegalKey, Splice;
      forall i: nat | i < CAPACITY
        ensures LineAt(buf[..], i) == if i == at then line else LineAt(t, i)
      {
        LineAtSplice(t, at, line, i);
      }
      Inserted(s, buf[..], cards, at, line);
      cards := cards[..at] + [line] + cards[at..];
      rc := 1;
    }

    /** hadd's search for END from the given line on. */
    method EndFrom(hplace: nat, ghost at: nat) returns (ve: nat)
      requires Valid() && at <= |cards| && hplace == LINE * at
      ensures ve == LINE * |cards|
    {
      ghost var s := buf[..];
      HasNulFrom(s, cards, at);
      assert buf[hplace..] == s[hplace..];
      var found := KSearch(buf[hplace..], "END");
      assert Key8("END") == "END";
      hide Represents, IsCardSearch;
      SearchFindsEndFrom(s, cards, at, found);
      ve := hplace + found.value;
    }

    /** hadd's shifting loop, from END backwards. */
    method ShiftDown(hplace: nat, ve: nat, ghost at: nat)
      requires Valid() && at <= |cards| && hplace == LINE * at && |cards| + 2 < CAPACITY
      requires ve == LINE * |cards|
      modifies buf
      ensures forall i: nat {:trigger LineAt(buf[..], i)} | i < CAPACITY ::
        LineAt(buf[..], i) == if at < i <= |cards| + 1 then LineAt(old(buf[..]), i - 1) else LineAt(old(buf[..]), i)
    {
      ghost var s := buf[..];
      ghost var e := |cards|;
      var v: int := ve;
      ghost var j: int := e;
      hide LineAt;
      while v >= hplace
        invariant buf.Length == TOTAL_SIZE && v == LINE * j && at - 1 <= j <= e
        invariant forall i: nat {:trigger LineAt(buf[..], i)} | i < CAPACITY ::
          LineAt(buf[..], i) == if j + 1 < i <= e + 1 then LineAt(s, i - 1) else LineAt(s, i)
        decreases v
      {
        NoNulInCards(s, cards, j);
        CopyCard(v + LINE, v, j + 1, j);
        v := v - LINE;
        j := j - 1;
      }
    }

    /** hadd's writes to the freed line: keyword, blanks, `=` … */
    method AddKey(hplace: nat, keyword: string)
      requires hplace + LINE <= buf.Length && 1 <= |keyword| <= 8
      modifies buf
      ensures buf[..] == Splice(old(buf[..]), hplace, PadRight(keyword, 8) + if |keyword| < 8 then "=" else "")
    {
      hide Splice, PadRight;
      var lkey := |keyword|;
      Copy(hplace, keyword, lkey);
      assert keyword[..lkey] == keyword;
      if lkey < 8 {
        Fill(hplace + lkey, hplace + 8, BLANK);
        SetChar(hplace + 8, '=');
      }
    }

    /** … and blanks to the end. */
    method WriteAdded(hplace: nat, keyword: string, ghost at: nat)
      requires buf.Length == TOTAL_SIZE && at < CAPACITY && hplace == LINE * at && 1 <= |keyword| <= 8
      modifies buf
      ensures buf[..] == Splice(old(buf[..]), hplace, AddLine(LineAt(old(buf[..]), at), keyword))
    {
      ghost var s := buf[..];
      AddKey(hplace, keyword);
      Fill(hplace + 9, hplace + LINE, BLANK);
      AddedLine(s, buf[..], at, keyword);
    }

    /** hputcom: the comment of an existing card; -1 when there is none or no room. */
    method HPutCom(keyword: string, comment: string) returns (rc: int)
      requires Valid() && Legal(cards, PutComment(keyword, comment))
      modifies this, buf
      ensures Valid()
      ensures (cards, rc == 0) == Comment(old(cards), keyword, comment)
      ensures rc == 0 || rc == -1
    {
      hide Represents, LegalKey, PlainText, ComFits, CommentFits, ComLine;
      var found := SearchKey(keyword);
      if found.None? {
        return -1;
      }
      var v1 := found.value / LINE * LINE;
      rc := ComAtCard(v1, keyword, comment);
    }

    /** hputcom behind the search. */
    method ComAtCard(v1: nat, keyword: string, comment: string) returns (rc: int)
      requires Valid() && Legal(cards, PutComment(keyword, comment))
      requires Find(cards, keyword).Some? && v1 == LINE * Find(cards, keyword).value
      modifies this, buf
      ensures Valid()
      ensures (cards, rc == 0) == Comment(old(cards), keyword, comment)
      ensures rc == 0 || rc == -1
    {
      ghost var at := Find(cards, keyword).value;
      var line := buf[v1..v1 + LINE];
      assert line == LineAt(buf[..], at) == cards[at];
      assert buf.Length == TOTAL_SIZE && at < CAPACITY;
      ghost var s := buf[..];
      hide LineAt, Represents, CommentStart, Card, LegalKey, Find, Splice, ComAt;
      var c0 := FindCommentStart(line);
      if c0 > 77 {
        return -1;
      }
      CommentLands(s, cards, keyword, comment);
      WriteCom(v1, at, c0, comment);
      cards := Comment(cards, keyword, comment).0;
      rc := 0;
    }

    /** hputcom's writes, from the blank before the slash on. */
    method WriteCom(v1: nat, ghost at: nat, c0: nat, comment: string)
      requires buf.Length == TOTAL_SIZE && at < CAPACITY && v1 == LINE * at
      requires c0 + 3 <= LINE && (comment != "" ==> c0 + 4 <= LINE)
      modifies buf
      ensures buf[..] == Splice(old(buf[..]), v1, ComAt(LineAt(old(buf[..]), at), c0, comment))
    {
      hide Splice, LineAt, ComAt;
      ghost var s := buf[..];
      ghost var line := LineAt(s, at);
      OwnLine(s, at);
      Copy(v1 + c0, " / ", 3);
      assert " / "[..3] == " / ";
      SpliceInLine(s, v1, line, c0, " / ");
      if |comment| > 0 {
        WriteComText(v1, c0 + 3, comment, s, Splice(line, c0, " / "));
      }
      ComAtWrites(line, c0, comment);
    }

    /** hputcom's text: blanks up to, but not on, the last column, then the comment. */
    method WriteComText(v1: nat, column: nat, comment: string, ghost s: seq<char>, ghost line: string)
      requires v1 + LINE <= buf.Length && column < LINE
      requires |line| == LINE && |s| == buf.Length && buf[..] == Splice(s, v1, line)
      modifies buf
      ensures buf[..] == Splice(s, v1, Splice(Splice(line, column, Repeat(BLANK, LINE - 1 - column)), column,
                                              Cut(comment, LINE - 1 - column)))
    {
      hide Splice, Repeat;
      var c1 := v1 + column;
      var lblank := v1 + 79 - c1;
      var lcom := |comment|;
      if lcom > lblank {
        lcom := lblank;
      }
      assert lcom == ComCount(column - 3, |comment|);
      Fill(c1, c1 + lblank, BLANK);
      SpliceInLine(s, v1, line, column, Repeat(BLANK, lblank));
      Copy(c1, comment, lcom);
      assert comment[..lcom] == Cut(comment, lblank);
      SpliceInLine(s, v1, Splice(line, column, Repeat(BLANK, lblank)), column, comment[..lcom]);
    }

    // ---------------------------------------------------------------- get

    /** hgetc_thread_safe for a keyword without a token selector. */
    method HGetC(keyword: string) returns (r: Option<string>)
      requires Valid() && LegalKey(Key8(keyword)) && '[' !in keyword && ',' !in keyword
      ensures r == Get(cards, keyword)
    {
      var vpos := SearchKey(keyword);
      if vpos.None? {
        return None;
      }
      ghost var at := Find(cards, keyword).value;
      var line := buf[vpos.value..vpos.value + LINE];
      assert line == LineAt(buf[..], at) == cards[at];
      NoNulInCards(buf[..], cards, at);
      hide GetText, LegalKey, LineAt, Represents;
      var value := ParseCard(line);
      r := Some(value);
    }

    /** hgets: the value, cut to the caller's buffer; only a value that fits is terminated. */
    method HGetS(keyword: string, str: array<char>) returns (rc: int)
      requires Valid() && LegalKey(Key8(keyword)) && '[' !in keyword && ',' !in keyword
      requires str.Length > 0 && str != buf
      modifies str
      ensures rc == if Get(cards, keyword).Some? then 1 else 0
      ensures rc == 0 ==> str[..] == old(str[..])
      ensures rc == 1 ==> var v := Get(cards, keyword).value;
        if |v| < str.Length then str[..|v|] == v && str[|v|] == NUL
        else if str.Length > 1 then str[..str.Length - 1] == v[..str.Length - 1] && str[str.Length - 1] == old(str[str.Length - 1])
        else str[0] == v[0]
    {
      var value := HGetC(keyword);
      if value.None? {
        return 0;
      }
      var v := value.value;
      hide Get, LegalKey, Represents;
      if |v| < str.Length {
        forall i | 0 <= i < |v| {
          str[i] := v[i];
        }
        str[|v|] := NUL;
      } else if str.Length > 1 {
        forall i | 0 <= i < str.Length - 1 {
          str[i] := v[i];
        }
      } else {
        str[0] := v[0];
      }
      rc := 1;
    }

    /** The getter that hgeti4, hgetu4 and hgeti2 repeat for their ranges; what stands in front
        of the local copy of the value is not known. */
    method GetSaturated(keyword: string, low: int, high: int) returns (r: Option<int>)
      requires Valid() && LegalKey(Key8(keyword)) && '[' !in keyword && ',' !in keyword
      ensures r == match Get(cards, keyword) case None => None case Some(v) => Some(Saturated(v, low, high))
    {
      hide Get, LegalKey, Saturated;
      var value := HGetC(keyword);
      if value.None? {
        return None;
      }
      var front: string := *;
      var n := SaturatedValue(value.value, front, low, high);
      r := Some(n);
    }

    /** hgeti4: the integer, when there is such a card. */
    method HGetI4(keyword: string) returns (r: Option<int>)
      requires Valid() && LegalKey(Key8(keyword)) && '[' !in keyword && ',' !in keyword
      ensures r == match Get(cards, keyword) case None => None case Some(v) => Some(ReadI4(v))
    {
      hide Get, LegalKey, Saturated;
      r := GetSaturated(keyword, -INT_MAX - 1, INT_MAX);
    }

    /** hgetu4. */
    method HGetU4(keyword: string) returns (r: Option<int>)
      requires Valid() && LegalKey(Key8(keyword)) && '[' !in keyword && ',' !in keyword
      ensures r == match Get(cards, keyword) case None => None case Some(v) => Some(ReadU4(v))
    {
      hide Get, LegalKey, Saturated;
      r := GetSaturated(keyword, 0, UINT_MAX);
    }

    /** hgeti2. */
    method HGetI2(keyword: string) returns (r: Option<int>)
      requires Valid() && LegalKey(Key8(keyword)) && '[' !in keyword && ',' !in keyword
      ensures r == match Get(cards, keyword) case None => None case Some(v) => Some(ReadI2(v))
    {
      hide Get, LegalKey, Saturated;
      r := GetSaturated(keyword, -SHRT_MAX - 1, SHRT_MAX);
    }

    /** hgeti8: strtoll, or atof when that stops early. */
    method HGetI8(keyword: string) returns (r: Option<int>)
      requires Valid() && LegalKey(Key8(keyword)) && '[' !in keyword && ',' !in keyword
      ensures r == match Get(cards, keyword) case None => None case Some(v) => Some(ReadI8(v))
    {
      hide Get, LegalKey, ReadI8;
      var value := HGetC(keyword);
      r := if value.Some? then Some(ReadI8(value.value)) else None;
    }

    /** hgetu8. */
    method HGetU8(keyword: string) returns (r: Option<int>)
      requires Valid() && LegalKey(Key8(keyword)) && '[' !in keyword && ',' !in keyword
      ensures r == match Get(cards, keyword) case None => None case Some(v) => Some(ReadU8(v))
    {
      hide Get, LegalKey, ReadU8;
      var value := HGetC(keyword);
      r := if value.Some? then Some(ReadU8(value.value)) else None;
    }

    // ---------------------------------------------------------------- creating

    /** The zeroed buffer with a blank first record that starts with END. */
    method Reset()
      requires buf.Length == TOTAL_SIZE
      modifies this, buf
      ensures Valid() && cards == []
    {
      Fill(0, TOTAL_SIZE, NUL);
      Fill(0, LINE, BLANK);
      Copy(0, "END", 3);
      assert LineAt(buf[..], 0) == END_LINE;
      EmptyStore(buf[..]);
      cards := [];
    }

    /** hashpipe_status_clear. */
    method Clear(instance_id: int)
      requires buf.Length == TOTAL_SIZE && -INT_MAX - 1 <= instance_id <= INT_MAX
      modifies this, buf
      ensures Valid() && cards == WithInstance([], instance_id)
    {
      Reset();
      PutInstance(instance_id);
    }

    method PutInstance(instance_id: int)
      requires Valid() && HasRoom(cards, INSTANCE) && -INT_MAX - 1 <= instance_id <= INT_MAX
      modifies this, buf
      ensures Valid() && cards == WithInstance(old(cards), instance_id)
    {
      InstanceIsLegal(cards, instance_id);
      hide LegalKey, Represents, NumberText, Find;
      var rc := HPutI(INSTANCE, instance_id);
    }

    /** hashpipe_status_chkinit, on a store or on a buffer without any END. */
    method ChkInit(instance_id: int)
      requires buf.Length == TOTAL_SIZE && -INT_MAX - 1 <= instance_id <= INT_MAX
      requires NoEnd(buf[..]) || (Valid() && HasRoom(cards, INSTANCE))
      modifies this, buf
      ensures Valid()
      ensures cards == if old(NoEnd(buf[..])) then WithInstance([], instance_id)
                       else if Get(old(cards), INSTANCE).Some? && ReadI4(Get(old(cards), INSTANCE).value) == instance_id
                       then old(cards)
                       else WithInstance(old(cards), instance_id)
    {
      var end := FindEnd();
      if end.None? {
        Reset();
        PutInstance(instance_id);
      } else {
        KeyInstance();
        hide LegalKey, Represents, Find, Get;
        var found := HGetI4(INSTANCE);
        if found.None? {
          PutInstance(instance_id);
        } else if found.value != instance_id {
          PutInstance(instance_id);
        }
      }
    }

    /** hashpipe_find_end: never empty-handed on a store. */
    method FindEnd() returns (r: Option<nat>)
      requires buf.Length == TOTAL_SIZE
      ensures r.None? <==> NoEnd(buf[..])
      ensures r.Some? ==> FirstEnd(buf[..], r.value)
      ensures Valid() ==> r.Some? && r.value <= LINE * |cards|
    {
      assert Valid() ==> "END" <= LineAt(buf[..], |cards|) && |cards| < CAPACITY;
      hide Represents, LineAt;
      var i := EndRecord();
      r := if i < CAPACITY then Some(LINE * i) else None;
    }

    /** The number of the first record that starts with END. */
    method EndRecord() returns (i: nat)
      requires buf.Length == TOTAL_SIZE
      ensures i <= CAPACITY && (i < CAPACITY ==> "END" <= LineAt(buf[..], i))
      ensures forall j: nat | j < i :: !("END" <= LineAt(buf[..], j))
    {
      hide LineAt;
      var offs := 0;
      i := 0;
      while offs < TOTAL_SIZE
        invariant offs == LINE * i && i <= CAPACITY
        invariant forall j: nat | j < i :: !("END" <= LineAt(buf[..], j))
      {
        var isEnd := StartsWithEnd(offs, i);
        if isEnd {
          return;
        }
        offs := offs + LINE;
        i := i + 1;
      }
    }

    /** strncmp of three characters at the start of a record. */
    method StartsWithEnd(offs: nat, ghost i: nat) returns (isEnd: bool)
      requires buf.Length == TOTAL_SIZE && i < CAPACITY && offs == LINE * i
      ensures isEnd <==> "END" <= LineAt(buf[..], i)
    {
      isEnd := buf[offs..offs + 3] == "END";
      assert buf[offs..offs + 3] == LineAt(buf[..], i)[..3];
    }
  }

  /** The card a put leaves is a card of the store. */
  lemma StorableCard(cards: seq<string>, key: string, value: string)
    requires AllCards(cards) && LegalKey(Key8(key)) && StorableValue(value)
    requires Fits(value, CommentFor(cards, key))
    ensures Card(PutLine(Key8(key), value, CommentFor(cards, key)))
  {
    var at := Find(cards, key);
    if at.Some? {
      OldCommentOfCard(cards[at.value]);
    }
    var comment := CommentFor(cards, key);
    assert CardComment(comment);
    hide CommentFor, Card, OldComment;
    if NumberText(value) {
      PutNumberCard(Key8(key), value, comment);
    } else {
      var t :| PlainText(t) && value == Quoted(t);
      PutTextCard(Key8(key), t, comment);
    }
  }

  /** The buffer after hputc's writes holds the list after the put. */
  lemma PutLands(s: seq<char>, cards: seq<string>, key: string, value: string)
    requires Represents(s, cards) && LegalKey(Key8(key)) && StorableValue(value)
    requires HasRoom(cards, key) && Fits(value, CommentFor(cards, key))
    ensures var card := PutLine(Key8(key), value, CommentFor(cards, key));
      match Find(cards, key)
      case None =>
        Represents(Splice(Splice(s, LINE * (|cards| + 1), END_LINE), LINE * |cards|, card), Put(cards, key, value))
      case Some(i) => Represents(Splice(s, LINE * i, card), Put(cards, key, value))
  {
    var card := PutLine(Key8(key), value, CommentFor(cards, key));
    StorableCard(cards, key, value);
    assert |cards| + 1 < CAPACITY && |s| == TOTAL_SIZE;
    hide PutLine, OldComment, Fits, StorableValue, LegalKey, Splice, Find, Represents, Card;
    match Find(cards, key)
    case None => Appended(s, cards, card);
    case Some(i) => Replaced(s, cards, i, card);
  }

  /** The buffer after hdel's writes holds the list without the card. */
  lemma DeleteLands(s: seq<char>, t: seq<char>, u: seq<char>, cards: seq<string>, at: nat)
    requires Represents(s, cards) && at < |cards| && |t| == |u| == TOTAL_SIZE
    requires forall i: nat {:trigger LineAt(t, i)} | i < CAPACITY ::
      LineAt(t, i) == if at <= i < |cards| then LineAt(s, i + 1) else LineAt(s, i)
    requires u == Splice(t, LINE * (|cards| + 1), [NUL])
    ensures Represents(u, cards[..at] + cards[at + 1..])
  {
    assert |cards| + 1 < CAPACITY;
    hide LineAt, Splice, Represents;
    NulBehind(t, u, |cards| + 1);
    Shifted(s, u, cards, at);
  }

  lemma AddedLine(s: seq<char>, t: seq<char>, at: nat, key: string)
    requires |s| == TOTAL_SIZE && at < CAPACITY && 1 <= |key| <= 8
    requires var named := Splice(s, LINE * at, PadRight(key, 8) + if |key| < 8 then "=" else "");
      t == Splice(named, LINE * at + 9, Repeat(BLANK, LINE - 9))
    ensures t == Splice(s, LINE * at, AddLine(LineAt(s, at), key))
  {
    var line := AddLine(LineAt(s, at), key);
    var start := PadRight(key, 8) + if |key| < 8 then "=" else "";
    assert |start| == if |key| < 8 then 9 else 8;
    assert forall i | 0 <= i < |start| :: line[i] == start[i];
    assert forall i | 9 <= i < LINE :: line[i] == BLANK;
    assert |key| == 8 ==> line[8] == s[LINE * at + 8];
    hide PadRight, LineAt, AddLine, Splice;
    forall i | 0 <= i < TOTAL_SIZE
      ensures t[i] == Splice(s, LINE * at, line)[i]
    {
    }
  }

  /** The printed integers are storable numbers and survive the -0 rule. */
  lemma IntTextIsNumber(n: int)
    requires -LLONG_MAX - 1 <= n <= ULLONG_MAX
    ensures NumberText(IntText(n)) && DropMinusZero(IntText(n)) == IntText(n)
  {
    IntTextWidth(n);
    var s := IntText(n);
    if n < 0 {
      var d := Digits(-n);
      assert s == "-" + d && AllDigits(d);
      assert s[1] == d[0];
    }
  }

  lemma KeyInstance()
    ensures LegalKey(Key8(INSTANCE)) && '[' !in INSTANCE && ',' !in INSTANCE
  {
    assert Key8(INSTANCE) == INSTANCE;
    assert |FoldText(INSTANCE)| == 8;
  }

  lemma InstanceIsLegal(cards: seq<string>, n: int)
    requires AllLines(cards) && HasRoom(cards, INSTANCE) && -INT_MAX - 1 <= n <= INT_MAX
    ensures LegalKey(Key8(INSTANCE)) && Legal(cards, PutNumber(INSTANCE, IntText(n)))
  {
    assert Key8(INSTANCE) == INSTANCE;
    assert |FoldText(INSTANCE)| == 8;
    IntTextIsNumber(n);
  }

  lemma OwnLine(s: seq<char>, at: nat)
    requires |s| == TOTAL_SIZE && at < CAPACITY
    ensures s == Splice(s, LINE * at, LineAt(s, at))
  {
    SpliceBack(s, LINE * at);
  }

  /** hputcom's writes to the card, one after the other, are ComAt. */
  lemma ComAtWrites(line: string, c0: nat, comment: string)
    requires |line| == LINE && c0 + 3 <= LINE && (comment != "" ==> c0 + 4 <= LINE)
    ensures var marked := Splice(line, c0, " / ");
      var room := LINE - 4 - c0;
      ComAt(line, c0, comment) ==
        if comment == "" then marked
        else Splice(Splice(marked, c0 + 3, Repeat(BLANK, room)), c0 + 3, Cut(comment, room))
  {
    var after := ComAt(line, c0, comment);
    assert CommentWritten(line, after, c0, comment) by {
      ComAtColumns(line, c0, comment);
    }
    hide ComAt, Splice;
  }

  lemma CommentLands(s: seq<char>, cards: seq<string>, key: string, comment: string)
    requires Represents(s, cards) && Legal(cards, PutComment(key, comment))
    requires Find(cards, key).Some? && CommentStart(cards[Find(cards, key).value]) <= LINE - 3
    ensures var at := Find(cards, key).value;
      var c0 := CommentStart(cards[at]);
      && c0 >= 0 && (comment != "" ==> c0 < LINE - 3)
      && Comment(cards, key, comment) == (cards[at := ComAt(cards[at], c0, comment)], true)
      && Represents(Splice(s, LINE * at, ComAt(cards[at], c0, comment)), Comment(cards, key, comment).0)
  {
    var at := Find(cards, key).value;
    var card := cards[at];
    assert Card(card) && CommentFits(card, comment);
    assert ComLine(card, comment) == Some(ComAt(card, CommentStart(card), comment));
    CommentedIsCard(card, comment);
    hide Represents, Card, ComAt, CommentStart;
    Replaced(s, cards, at, ComLine(card, comment).value);
  }

  lemma CommentedIsCard(line: string, comment: string)
    requires Card(line) && PlainText(comment) && CommentFits(line, comment) && ComLine(line, comment).Some?
    ensures Card(ComLine(line, comment).value)
  {
    if NumberCard(line) {
      hide Card, ComLine, CommentFits, NumberCard;
      ComKeepsNumber(line, comment);
    } else {
      var close :| StringCard(line, close);
      hide Card, ComLine, CommentFits, NumberCard;
      ComKeepsString(line, close, comment);
    }
  }

  lemma LineHasSeparator(s: seq<char>, cards: seq<string>, at: nat)
    requires Represents(s, cards) && at <= |cards|
    ensures LineAt(s, at)[8] == '=' || LineAt(s, at)[8] == BLANK
  {
    if at < |cards| {
      assert Card(cards[at]);
    }
  }

  lemma LineCopied(s: seq<char>, t: seq<char>, to: nat, from: nat)
    requires |s| == |t| == TOTAL_SIZE && to < CAPACITY && from < CAPACITY && NUL !in LineAt(s, from)
    requires t == Splice(s, LINE * to, StrncpyArea(s[LINE * from..LINE * from + LINE]))
    ensures forall i: nat | i < CAPACITY :: LineAt(t, i) == if i == to then LineAt(s, from) else LineAt(s, i)
  {
    StrncpyWholeArea(LineAt(s, from));
    forall i: nat | i < CAPACITY
      ensures LineAt(t, i) == if i == to then LineAt(s, from) else LineAt(s, i)
    {
      LineAtSplice(s, to, LineAt(s, from), i);
    }
  }

  lemma LineOutside(s: seq<char>, t: seq<char>, n: nat, i: nat)
    requires |s| == |t| == TOTAL_SIZE && n < CAPACITY && i < CAPACITY && i != n && t == Splice(s, LINE * n, [NUL])
    ensures LineAt(t, i) == LineAt(s, i)
  {
    forall c | 0 <= c < LINE
      ensures LineAt(t, i)[c] == LineAt(s, i)[c]
    {
      assert t[LINE * i + c] == s[LINE * i + c];
    }
  }

  lemma NulBehind(s: seq<char>, t: seq<char>, n: nat)
    requires |s| == |t| == TOTAL_SIZE && n < CAPACITY && t == Splice(s, LINE * n, [NUL])
    ensures LineAt(t, n)[0] == NUL
    ensures forall i: nat | i < CAPACITY && i != n :: LineAt(t, i) == LineAt(s, i)
  {
    assert t[LINE * n] == NUL;
    forall i: nat | i < CAPACITY && i != n
      ensures LineAt(t, i) == LineAt(s, i)
    {
      LineOutside(s, t, n, i);
    }
  }

  lemma NoBlankCard(s: seq<char>, cards: seq<string>, b: nat)
    requires Represents(s, cards)
    requires b < LINE * |cards| && (LINE * |cards| - b) % LINE == 0
    ensures b + LINE <= LINE * |cards| && !BlankKey(s, LINE * (|cards| - 1))
  {
    var last := |cards| - 1;
    assert Card(cards[last]);
    assert cards[last][0] == KeyOf(cards[last])[0] != BLANK;
    assert s[LINE * last] == LineAt(s, last)[0];
  }

  lemma BlankRunEndsAbove(s: seq<char>, e: nat, b: nat)
    requires LINE * e <= |s| && IsBlankRun(s, Some(LINE * e), Some(b))
    ensures b < LINE * e && (LINE * e - b) % LINE == 0 && e > 0
    ensures BlankKey(s, LINE * (e - 1))
  {
    hide BlankKey;
    var last := LINE * (e - 1);
    assert b <= last && (LINE * e - last) % LINE == 0 && last + 8 <= |s|;
  }

  lemma NoBlankLine(s: seq<char>, cards: seq<string>, r: Option<nat>)
    requires Represents(s, cards) && NUL in s
    requires exists card: Option<nat> :: IsCardSearch(s, "END", card) && IsBlankRun(s, card, r)
    ensures r == None
  {
    hide Represents, IsCardSearch, IsBlankRun;
    var card: Option<nat> :| IsCardSearch(s, "END", card) && IsBlankRun(s, card, r);
    SearchFindsEnd(s, cards, card);
    NoBlankAbove(s, cards, r);
  }

  lemma NoBlankAbove(s: seq<char>, cards: seq<string>, r: Option<nat>)
    requires Represents(s, cards) && IsBlankRun(s, Some(LINE * |cards|), r)
    ensures r == None
  {
    assert LINE * |cards| <= |s|;
    hide Represents, BlankKey, IsBlankRun;
    if r.Some? {
      BlankRunEndsAbove(s, |cards|, r.value);
      NoBlankCard(s, cards, r.value);
    }
  }
}
