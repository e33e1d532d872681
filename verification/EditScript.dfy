/** The edit scripts that bring a terminal display up to date: commands to drop or keep
    characters of the old display or to insert new text, each with a decimal length. */
module EditScript {

  datatype Op = Drop(n: nat) | Keep(n: nat) | Insert(text: string)

  // ---------- the meaning of a script ----------

  function Min(a: nat, b: nat): nat {
    if a < b then a else b
  }

  /** What the operations make of `rest`, the part of the old display not yet passed. */
  function Meaning(rest: string, ops: seq<Op>): string {
    if ops == [] then ""
    else
      match ops[0]
      case Drop(n) => Meaning(rest[Min(n, |rest|)..], ops[1..])
      case Keep(n) => rest[..Min(n, |rest|)] + Meaning(rest[Min(n, |rest|)..], ops[1..])
      case Insert(text) => text + Meaning(rest, ops[1..])
  }

  // ---------- the text form ----------

  function Digit(d: nat): char
    requires d < 10
  {
    "0123456789"[d]
  }

  function Decimal(n: nat): string {
    if n < 10 then [Digit(n)] else Decimal(n / 10) + [Digit(n % 10)]
  }

  function EncodeOp(op: Op): string {
    match op
    case Drop(n) => "d" + Decimal(n) + ":"
    case Keep(n) => "k" + Decimal(n) + ":"
    case Insert(text) => "i" + Decimal(|text|) + ":" + text
  }

  function Encode(ops: seq<Op>): string {
    if ops == [] then "" else EncodeOp(ops[0]) + Encode(ops[1..])
  }

  // ---------- numbers and strings as the interpreter meets them ----------

  datatype Num = Whole(n: int) | NaN

  function Add(a: Num, b: Num): Num {
    if a.Whole? && b.Whole? then Whole(a.n + b.n) else NaN
  }

  predicate IsDigit(c: char) {
    '0' <= c <= '9'
  }

  predicate Digits(s: string) {
    forall k :: 0 <= k < |s| ==> IsDigit(s[k])
  }

  function Value(s: string): nat
    requires Digits(s)
  {
    if s == "" then 0 else 10 * Value(s[..|s| - 1]) + (s[|s| - 1] as int - '0' as int)
  }

  function Minus(n: int): int {
    0 - n
  }

  /** `Number` of a string of digits, with or without a sign; the empty string is zero. */
  function Number(s: string): Num {
    if Digits(s) then Whole(Value(s))
    else if |s| > 1 && s[0] == '-' && Digits(s[1..]) then Whole(Minus(Value(s[1..])))
    else if |s| > 1 && s[0] == '+' && Digits(s[1..]) then Whole(Value(s[1..]))
    else NaN
  }

  function CharAt(s: string, i: int): string {
    if 0 <= i < |s| then [s[i]] else ""
  }

  /** `indexOf`: -1 when there is none; a negative start is taken as zero. */
  function IndexOf(s: string, c: char, from: int): (r: int)
    ensures r == -1 || (0 <= r < |s| && from <= r && s[r] == c)
    decreases |s| - from
  {
    if from >= |s| then -1
    else if from < 0 then IndexOf(s, c, 0)
    else if s[from] == c then from
    else IndexOf(s, c, from + 1)
  }

  /** `substr`: a negative start counts from the end, and the result is clipped to the string. */
  function Substr(s: string, start: Num, length: Num): string {
    var from: nat :=
      if start.NaN? then 0
      else if start.n >= 0 then Min(start.n, |s|)
      else if |s| + start.n >= 0 then |s| + start.n
      else 0;
    if length.NaN? || length.n <= 0 then "" else s[from..Min(from + length.n, |s|)]
  }

  // ---------- the interpreter ----------

  /** One command as the loop reads it: its letter, its number and the position after the colon. */
  datatype Command = Command(letter: string, num: Num, body: int)

  function Read(script: string, i: int): Command {
    var cp := IndexOf(script, ':', i + 1);
    Command(CharAt(script, i), Number(Substr(script, Whole(i + 1), Whole(cp - (i + 1)))), cp + 1)
  }

  /** Only an insertion takes characters from the script. */
  function NextStart(c: Command): Num {
    if c.letter == "i" then Add(Whole(c.body), c.num) else Whole(c.body)
  }

  function NextDp(c: Command, dp: Num): Num {
    if c.letter == "d" || c.letter == "k" then Add(dp, c.num) else dp
  }

  function Output(disp: string, script: string, c: Command, dp: Num): string {
    if c.letter == "k" then Substr(disp, dp, c.num)
    else if c.letter == "i" then Substr(script, Whole(c.body), c.num)
    else ""
  }

  function Next(script: string, i: int): Num {
    NextStart(Read(script, i))
  }

  /** The variables of the loop. */
  datatype State = State(i: Num, dp: Num, ndisp: string)

  const START := State(Whole(0), Whole(0), "")

  /** `i < edscr.length`, which is false of NaN. */
  predicate Inside(script: string, i: Num) {
    i.Whole? && i.n < |script|
  }

  function Turn(disp: string, script: string, st: State): State
    requires Inside(script, st.i)
  {
    var c := Read(script, st.i.n);
    State(NextStart(c), NextDp(c, st.dp), st.ndisp + Output(disp, script, c, st.dp))
  }

  /** The variables after at most `n` turns of the loop. */
  function After(disp: string, script: string, st: State, n: nat): State
    decreases n
  {
    if n == 0 || !Inside(script, st.i) then st else After(disp, script, Turn(disp, script, st), n - 1)
  }

  /** `Diverges` stands for a loop that never ends. */
  datatype Outcome = Done(display: string) | Diverges

  /** A loop that has not ended after this many turns never does. */
  function TurnLimit(script: string): nat {
    |script| + 2
  }

  function Process(disp: string, script: string): Outcome {
    var st := After(disp, script, START, TurnLimit(script));
    if Inside(script, st.i) then Diverges else Done(st.ndisp)
  }

  /** The body of the loop. */
  method Execute(disp: string, edscr: string, start: int, oldDp: Num, oldDisp: string)
    returns (i: Num, dp: Num, ndisp: string)
    requires start < |edscr|
    ensures State(i, dp, ndisp) == Turn(disp, edscr, State(Whole(start), oldDp, oldDisp))
  {
    hide Substr, Number;
    dp, ndisp := oldDp, oldDisp;
    var cmd := CharAt(edscr, start);
    i := Whole(start + 1);
    var cp := IndexOf(edscr, ':', i.n);
    var num := Number(Substr(edscr, i, Whole(cp - i.n)));
    i := Whole(cp + 1);
    if cmd == "d" {
      dp := Add(dp, num);
    } else if cmd == "k" {
      ndisp := ndisp + Substr(disp, dp, num);
      dp := Add(dp, num);
    } else if cmd == "i" {
      ndisp := ndisp + Substr(edscr, i, num);
      i := Add(i, num);
    }
  }

  /** `process_editscript`, given up after as many turns as it takes to know that it never ends. */
  method ProcessEditScript(disp: string, edscr: string) returns (r: Outcome)
    ensures r == Process(disp, edscr)
  {
    hide Turn;
    var ndisp, i, dp := "", Whole(0), Whole(0);
    var turns := 0;
    while i.Whole? && i.n < |edscr| && turns < TurnLimit(edscr)
      invariant turns <= TurnLimit(edscr)
      invariant After(disp, edscr, State(i, dp, ndisp), TurnLimit(edscr) - turns) ==
                After(disp, edscr, START, TurnLimit(edscr))
      decreases TurnLimit(edscr) - turns
    {
      i, dp, ndisp := Execute(disp, edscr, i.n, dp, ndisp);
      turns := turns + 1;
    }
    r := if Inside(edscr, i) then Diverges else Done(ndisp);
  }

  lemma {:induction false} AfterAdds(disp: string, script: string, st: State, m: nat, n: nat)
    ensures After(disp, script, st, m + n) == After(disp, script, After(disp, script, st, m), n)
    decreases m
  {
    hide Turn;
    if m > 0 && Inside(script, st.i) {
      AfterAdds(disp, script, Turn(disp, script, st), m - 1, n);
    }
  }

  // ---------- the round trip ----------

  lemma DigitValue(d: nat)
    requires d < 10
    ensures IsDigit(Digit(d)) && Digit(d) as int - '0' as int == d
  {}

  lemma DigitsSnoc(s: string, d: nat)
    requires Digits(s) && d < 10
    ensures Digits(s + [Digit(d)]) && Value(s + [Digit(d)]) == 10 * Value(s) + d
  {
    DigitValue(d);
    assert (s + [Digit(d)])[..|s|] == s;
  }

  lemma {:induction false} DecimalRoundTrip(n: nat)
    ensures Digits(Decimal(n)) && Value(Decimal(n)) == n && Number(Decimal(n)) == Whole(n)
  {
    if n < 10 {
      assert Decimal(n) == "" + [Digit(n)];
      DigitsSnoc("", n);
    } else {
      DecimalRoundTrip(n / 10);
      DigitsSnoc(Decimal(n / 10), n % 10);
    }
  }

  /** The first colon after a command is the one that ends its number, whatever text follows. */
  lemma {:induction false} FindsColon(s: string, from: nat, cp: nat)
    requires from <= cp < |s| && s[cp] == ':' && forall k :: from <= k < cp ==> s[k] != ':'
    ensures IndexOf(s, ':', from) == cp
    decreases cp - from
  {
    if from < cp {
      FindsColon(s, from + 1, cp);
    }
  }

  /** A command at position `|pre|` is read with its own header, up to its own colon. */
  lemma ReadsHeader(pre: string, letter: char, head: string, post: string)
    requires ':' !in head
    ensures var s := pre + ([letter] + head + ":" + post);
            |pre| < |s| && Read(s, |pre|) == Command([letter], Number(head), |pre| + 2 + |head|)
  {
    var s := pre + ([letter] + head + ":" + post);
    var cp := |pre| + 1 + |head|;
    assert s[|pre|] == letter && s[cp] == ':';
    forall k | |pre| + 1 <= k < cp
      ensures s[k] != ':'
    {
      assert s[k] == head[k - (|pre| + 1)];
    }
    FindsColon(s, |pre| + 1, cp);
    assert s[|pre| + 1..cp] == head;
    assert Substr(s, Whole(|pre| + 1), Whole(|head|)) == head;
  }

  lemma DigitsHaveNoColon(s: string)
    requires Digits(s)
    ensures ':' !in s
  {
    forall k | 0 <= k < |s|
      ensures s[k] != ':'
    {
      assert IsDigit(s[k]);
    }
  }

  function Letter(op: Op): char {
    match op
    case Drop(_) => 'd'
    case Keep(_) => 'k'
    case Insert(_) => 'i'
  }

  function Length(op: Op): nat {
    match op
    case Drop(n) => n
    case Keep(n) => n
    case Insert(text) => |text|
  }

  lemma Assoc(a: string, b: string, c: string)
    ensures a + (b + c) == (a + b) + c
  {}

  lemma EncodedForm(op: Op, tail: string)
    ensures EncodeOp(op) + tail ==
            [Letter(op)] + Decimal(Length(op)) + ":" + if op.Insert? then op.text + tail else tail
  {
    if op.Insert? {
      Assoc("i" + Decimal(|op.text|) + ":", op.text, tail);
    }
  }

  /** Reading an encoded operation, whatever comes before and after it. */
  lemma ReadsOp(pre: string, op: Op, tail: string)
    ensures var s := pre + EncodeOp(op) + tail;
            |pre| < |s| &&
            Read(s, |pre|) == Command([Letter(op)], Whole(Length(op)), |pre| + 2 + |Decimal(Length(op))|)
  {
    DecimalRoundTrip(Length(op));
    DigitsHaveNoColon(Decimal(Length(op)));
    EncodedForm(op, tail);
    Assoc(pre, EncodeOp(op), tail);
    ReadsHeader(pre, Letter(op), Decimal(Length(op)), if op.Insert? then op.text + tail else tail);
  }

  /** The part of the display from position `dp` on. */
  function Rest(disp: string, dp: nat): string {
    disp[Min(dp, |disp|)..]
  }

  lemma RestSteps(disp: string, dp: nat, n: nat)
    ensures Rest(disp, dp)[Min(n, |Rest(disp, dp)|)..] == Rest(disp, dp + n)
    ensures Rest(disp, dp)[..Min(n, |Rest(disp, dp)|)] == Substr(disp, Whole(dp), Whole(n))
  {}

  function NextInDisplay(op: Op, dp: nat): nat {
    if op.Insert? then dp else dp + Length(op)
  }

  function Contribution(disp: string, op: Op, dp: nat): string {
    match op
    case Drop(_) => ""
    case Keep(n) => Substr(disp, Whole(dp), Whole(n))
    case Insert(text) => text
  }

  lemma MeaningUnfolds(rest: string, ops: seq<Op>)
    requires ops != []
    ensures var op, n := ops[0], Min(Length(ops[0]), |rest|);
            Meaning(rest, ops) == if op.Drop? then Meaning(rest[n..], ops[1..])
                                  else if op.Keep? then rest[..n] + Meaning(rest[n..], ops[1..])
                                  else op.text + Meaning(rest, ops[1..])
  {}

  lemma MeaningSteps(disp: string, dp: nat, ops: seq<Op>)
    requires ops != []
    ensures Meaning(Rest(disp, dp), ops) ==
            Contribution(disp, ops[0], dp) + Meaning(Rest(disp, NextInDisplay(ops[0], dp)), ops[1..])
  {
    hide Substr, Rest, Min, Meaning;
    RestSteps(disp, dp, Length(ops[0]));
    MeaningUnfolds(Rest(disp, dp), ops);
    var more := Meaning(Rest(disp, NextInDisplay(ops[0], dp)), ops[1..]);
    assert "" + more == more;
  }

  lemma Middle(a: string, b: string, c: string)
    ensures Substr(a + b + c, Whole(|a|), Whole(|b|)) == b
  {
    assert (a + b + c)[|a|..|a| + |b|] == b;
  }

  lemma InsertedText(pre: string, text: string, tail: string)
    ensures var head := "i" + Decimal(|text|) + ":";
            Substr(pre + (head + text) + tail, Whole(|pre| + |head|), Whole(|text|)) == text
  {
    hide Substr, Decimal;
    var head := "i" + Decimal(|text|) + ":";
    Assoc(pre, head, text);
    Middle(pre + head, text, tail);
  }

  lemma OutputOfOp(disp: string, pre: string, op: Op, tail: string, dp: nat)
    ensures var s := pre + EncodeOp(op) + tail;
            var c := Command([Letter(op)], Whole(Length(op)), |pre| + 2 + |Decimal(Length(op))|);
            NextStart(c) == Whole(|pre + EncodeOp(op)|) && NextDp(c, Whole(dp)) == Whole(NextInDisplay(op, dp)) &&
            Output(disp, s, c, Whole(dp)) == Contribution(disp, op, dp)
  {
    hide Substr;
    if op.Insert? {
      InsertedText(pre, op.text, tail);
    }
  }

  /** One encoded operation is one turn of the loop. */
  lemma TurnOfOp(disp: string, pre: string, op: Op, tail: string, dp: nat, out: string)
    ensures var s := pre + EncodeOp(op) + tail;
            |pre| < |s| &&
            Turn(disp, s, State(Whole(|pre|), Whole(dp), out)) ==
            State(Whole(|pre + EncodeOp(op)|), Whole(NextInDisplay(op, dp)), out + Contribution(disp, op, dp))
  {
    hide Read, NextStart, NextDp, Output, Contribution, NextInDisplay, EncodeOp;
    ReadsOp(pre, op, tail);
    OutputOfOp(disp, pre, op, tail, dp);
  }

  lemma {:induction false} ProcessEncoded(disp: string, pre: string, ops: seq<Op>, dp: nat, out: string)
    ensures var last := After(disp, pre + Encode(ops), State(Whole(|pre|), Whole(dp), out), |ops|);
            last.i == Whole(|pre + Encode(ops)|) && last.ndisp == out + Meaning(Rest(disp, dp), ops)
    decreases |ops|
  {
    hide Turn, EncodeOp, Contribution, NextInDisplay;
    if ops != [] {
      var op, tail := ops[0], Encode(ops[1..]);
      var next, more := NextInDisplay(op, dp), Contribution(disp, op, dp);
      Assoc(pre, EncodeOp(op), tail);
      TurnOfOp(disp, pre, op, tail, dp, out);
      ProcessEncoded(disp, pre + EncodeOp(op), ops[1..], next, out + more);
      MeaningSteps(disp, dp, ops);
      Assoc(out, more, Meaning(Rest(disp, next), ops[1..]));
    }
  }

  lemma {:induction false} EncodeIsLonger(ops: seq<Op>)
    ensures |ops| <= |Encode(ops)|
  {
    if ops != [] {
      EncodeIsLonger(ops[1..]);
    }
  }

  /** Whatever the operations and the inserted text, the interpreter gives their meaning. */
  lemma ScriptMeansItsOps(disp: string, ops: seq<Op>)
    ensures Process(disp, Encode(ops)) == Done(Meaning(disp, ops))
  {
    hide Turn;
    var s := Encode(ops);
    ProcessEncoded(disp, "", ops, 0, "");
    assert "" + s == s && Rest(disp, 0) == disp;
    EncodeIsLonger(ops);
    AfterAdds(disp, s, START, |ops|, TurnLimit(s) - |ops|);
  }

  // ---------- the positions alone ----------

  /** Where the loop reads after `n` turns; the display does not matter. */
  function Position(script: string, i: Num, n: nat): Num
    decreases n
  {
    if n == 0 || !Inside(script, i) then i else Position(script, Next(script, i.n), n - 1)
  }

  lemma {:induction false} PositionOfAfter(disp: string, script: string, st: State, n: nat)
    ensures After(disp, script, st, n).i == Position(script, st.i, n)
    decreases n
  {
    hide Read, NextStart, NextDp, Output;
    if n > 0 && Inside(script, st.i) {
      PositionOfAfter(disp, script, Turn(disp, script, st), n - 1);
    }
  }

  lemma {:induction false} PositionsAdd(script: string, i: Num, m: nat, n: nat)
    ensures Position(script, i, m + n) == Position(script, Position(script, i, m), n)
    decreases m
  {
    hide Next;
    if m > 0 && Inside(script, i) {
      PositionsAdd(script, Next(script, i.n), m - 1, n);
    }
  }

  ghost predicate InsideUntil(script: string, n: nat) {
    forall k: nat :: k < n ==> Inside(script, Position(script, Whole(0), k))
  }

  ghost predicate Forever(script: string) {
    forall k: nat :: Inside(script, Position(script, Whole(0), k))
  }

  /** Coming back to a position means going round for ever. */
  lemma {:induction false} Periodic(script: string, a: nat, b: nat, n: nat)
    requires a < b && InsideUntil(script, b)
    requires Position(script, Whole(0), a) == Position(script, Whole(0), b)
    ensures Inside(script, Position(script, Whole(0), n))
    decreases n
  {
    hide Next;
    if n >= b {
      PositionsAdd(script, Whole(0), b, n - b);
      PositionsAdd(script, Whole(0), a, n - b);
      Periodic(script, a, b, n - (b - a));
    }
  }

  lemma ComesBack(script: string, a: nat, b: nat)
    requires a < b && InsideUntil(script, b)
    requires Position(script, Whole(0), a) == Position(script, Whole(0), b)
    ensures Forever(script)
  {
    hide Next;
    forall n: nat
      ensures Inside(script, Position(script, Whole(0), n))
    {
      Periodic(script, a, b, n);
    }
  }

  // ---------- every loop that ends does so within the limit ----------

  /** All positions before the start lead to the same place. */
  function Place(i: int): nat {
    if i < 0 then 0 else i + 1
  }

  lemma SamePlaceSameNext(script: string, i: int, j: int)
    requires Place(i) == Place(j)
    ensures Next(script, i) == Next(script, j)
  {
    if i < 0 {
      assert IndexOf(script, ':', i + 1) == IndexOf(script, ':', 0) == IndexOf(script, ':', j + 1);
    }
  }

  function PlaceAfter(script: string, k: nat): nat {
    match Position(script, Whole(0), k)
    case NaN => 0
    case Whole(i) => Place(i)
  }

  function Places(script: string, n: nat): (ps: seq<nat>)
    ensures |ps| == n && forall k :: 0 <= k < n ==> ps[k] == PlaceAfter(script, k)
  {
    if n == 0 then [] else Places(script, n - 1) + [PlaceAfter(script, n - 1)]
  }

  lemma PlacesAreFew(script: string, n: nat)
    requires InsideUntil(script, n)
    ensures forall x :: x in Places(script, n) ==> x in UpTo(|script| + 1)
  {
    hide Next;
    forall k | 0 <= k < n
      ensures PlaceAfter(script, k) <= |script|
    {
      assert Inside(script, Position(script, Whole(0), k));
    }
  }

  ghost predicate AllDifferent(s: seq<nat>) {
    forall j, k :: 0 <= j < k < |s| ==> s[j] != s[k]
  }

  function UpTo(m: nat): (r: set<nat>)
    ensures |r| == m && forall x: nat :: x in r <==> x < m
  {
    if m == 0 then {} else UpTo(m - 1) + {m - 1}
  }

  lemma {:induction false} DifferentFit(s: seq<nat>, within: set<nat>)
    requires AllDifferent(s) && forall x :: x in s ==> x in within
    ensures |s| <= |within|
  {
    if s != [] {
      var init, last := s[..|s| - 1], s[|s| - 1];
      assert s == init + [last];
      assert last !in init;
      DifferentFit(init, within - {last});
    }
  }

  /** Any script: the loop ends within |script| + 2 turns, with the display the interpreter gives,
      or it never ends. */
  lemma EndsWithinLimit(disp: string, script: string)
    ensures Process(disp, script).Diverges? <==> forall n: nat :: Inside(script, After(disp, script, START, n).i)
    ensures Process(disp, script).Diverges? <==> Forever(script)
    ensures Process(disp, script).Done? ==>
              var last := After(disp, script, START, TurnLimit(script));
              Process(disp, script) == Done(last.ndisp) && !Inside(script, last.i)
  {
    hide Next, Turn;
    var limit := TurnLimit(script);
    forall n: nat
      ensures After(disp, script, START, n).i == Position(script, Whole(0), n)
    {
      PositionOfAfter(disp, script, START, n);
    }
    if Inside(script, Position(script, Whole(0), limit)) {
      StaysInside(script, limit);
      var ps := Places(script, limit);
      if AllDifferent(ps) {
        PlacesAreFew(script, limit);
        DifferentFit(ps, UpTo(|script| + 1));
        assert false;
      }
      var j, k :| 0 <= j < k < |ps| && ps[j] == ps[k];
      MeetsAgain(script, j, k, limit);
    } else {
      assert !Inside(script, After(disp, script, START, limit).i);
    }
  }

  lemma {:induction false} StaysInside(script: string, n: nat)
    requires Inside(script, Position(script, Whole(0), n))
    ensures InsideUntil(script, n)
    decreases n
  {
    hide Next;
    if n > 0 {
      PositionsAdd(script, Whole(0), n - 1, 1);
      StaysInside(script, n - 1);
    }
  }

  lemma MeetsAgain(script: string, j: nat, k: nat, limit: nat)
    requires j < k < limit && InsideUntil(script, limit) && Inside(script, Position(script, Whole(0), limit))
    requires PlaceAfter(script, j) == PlaceAfter(script, k)
    ensures Forever(script)
  {
    hide Next;
    PositionsAdd(script, Whole(0), j, 1);
    PositionsAdd(script, Whole(0), k, 1);
    assert Inside(script, Position(script, Whole(0), j)) && Inside(script, Position(script, Whole(0), k));
    SamePlaceSameNext(script, Position(script, Whole(0), j).n, Position(script, Whole(0), k).n);
    ComesBack(script, j + 1, k + 1);
  }

  // ---------- which scripts never end ----------

  /** A piece of script: an insertion with its digits and as much text as they say, or any other
      letter with anything up to a colon. */
  datatype Piece = Other(letter: char, head: string) | Inserted(digits: string, text: string)

  predicate Proper(p: Piece) {
    match p
    case Other(letter, head) => letter != 'i' && ':' !in head
    case Inserted(digits, text) => Digits(digits) && |text| == Value(digits)
  }

  function Write(p: Piece): string {
    match p
    case Other(letter, head) => [letter] + head + ":"
    case Inserted(digits, text) => "i" + digits + ":" + text
  }

  function WriteAll(ps: seq<Piece>): string {
    if ps == [] then "" else WriteAll(ps[..|ps| - 1]) + Write(ps[|ps| - 1])
  }

  predicate AllProper(ps: seq<Piece>) {
    forall k :: 0 <= k < |ps| ==> Proper(ps[k])
  }

  /** Something is left, with no colon after its first character. */
  predicate NoColon(tail: string) {
    tail != "" && ':' !in tail[1..]
  }

  /** An insertion announced with more text than the script has. */
  ghost predicate CutShort(tail: string) {
    exists digits, text :: Digits(digits) && |text| < Value(digits) && tail == "i" + digits + ":" + text
  }

  ghost predicate Splits(script: string, ps: seq<Piece>, tail: string) {
    AllProper(ps) && script == WriteAll(ps) + tail
  }

  /** Every insertion has a length made of digits. */
  ghost predicate DigitLengths(script: string) {
    exists ps, tail :: Splits(script, ps, tail) && (tail == "" || NoColon(tail) || CutShort(tail))
  }

  ghost predicate EndsWithoutColon(script: string) {
    exists ps, tail :: Splits(script, ps, tail) && NoColon(tail)
  }

  lemma PieceIsRead(pre: string, p: Piece, post: string)
    requires Proper(p)
    ensures var s := pre + Write(p) + post;
            |pre| < |s| && Next(s, |pre|) == Whole(|pre + Write(p)|)
  {
    match p
    case Other(letter, head) =>
      Assoc(pre, Write(p), post);
      ReadsHeader(pre, letter, head, post);
    case Inserted(digits, text) =>
      DigitsHaveNoColon(digits);
      ReadsHeader(pre, 'i', digits, text + post);
      Assoc("i" + digits + ":", text, post);
      Assoc(pre, Write(p), post);
  }

  /** A command that is neither drop, keep nor insert is passed over: only the position moves. */
  lemma OtherLettersIgnored(disp: string, pre: string, letter: char, head: string, post: string, dp: Num, out: string)
    requires letter != 'd' && letter != 'k' && letter != 'i' && ':' !in head
    ensures var s := pre + ([letter] + head + ":" + post);
            |pre| < |s| &&
            Turn(disp, s, State(Whole(|pre|), dp, out)) == State(Whole(|pre| + 2 + |head|), dp, out)
  {
    hide Read;
    ReadsHeader(pre, letter, head, post);
    assert out + "" == out;
  }

  lemma NegativeNumber(n: nat)
    ensures var head := "-" + Decimal(n);
            ':' !in head && Number(head) == Whole(Minus(n)) && Minus(n) == 0 - n
  {
    var head := "-" + Decimal(n);
    DecimalRoundTrip(n);
    DigitsHaveNoColon(Decimal(n));
    assert head[1..] == Decimal(n) && !IsDigit(head[0]);
  }

  /** A keep of minus `n` shows nothing, and like a drop of minus `n` goes back in the old display. */
  lemma NegativeGoesBack(disp: string, pre: string, letter: char, n: nat, post: string, dp: int, out: string)
    requires letter == 'd' || letter == 'k'
    ensures var s := pre + ([letter] + ("-" + Decimal(n)) + ":" + post);
            |pre| < |s| &&
            Turn(disp, s, State(Whole(|pre|), Whole(dp), out)) ==
            State(Whole(|pre| + 3 + |Decimal(n)|), Whole(dp - n), out)
  {
    hide Read, Decimal, Number, Minus, Turn;
    NegativeNumber(n);
    var head := "-" + Decimal(n);
    ReadsHeader(pre, letter, head, post);
    TurnBackwards(disp, pre + ([letter] + head + ":" + post), |pre|, letter, 0 - n, |pre| + 2 + |head|, dp, out);
  }

  lemma TurnBackwards(disp: string, s: string, i: nat, letter: char, m: int, body: nat, dp: int, out: string)
    requires i < |s| && (letter == 'd' || letter == 'k') && m <= 0
    requires Read(s, i) == Command([letter], Whole(m), body)
    ensures Turn(disp, s, State(Whole(i), Whole(dp), out)) == State(Whole(body), Whole(dp + m), out)
  {
    hide Read;
    assert out + "" == out;
  }

  /** Each piece takes one turn. */
  lemma {:induction false} WalksPieces(script: string, ps: seq<Piece>, tail: string)
    requires Splits(script, ps, tail)
    ensures InsideUntil(script, |ps|) && Position(script, Whole(0), |ps|) == Whole(|WriteAll(ps)|)
    decreases |ps|
  {
    hide Next, Write, Proper;
    if ps != [] {
      var n := |ps| - 1;
      var init, p := ps[..n], ps[n];
      Assoc(WriteAll(init), Write(p), tail);
      WalksPieces(script, init, Write(p) + tail);
      PieceIsRead(WriteAll(init), p, tail);
      PositionsAdd(script, Whole(0), n, 1);
      assert Position(script, Whole(0), n) == Whole(|WriteAll(init)|);
    }
  }

  lemma {:induction false} FindsNoColon(s: string, from: nat)
    requires forall k :: from <= k < |s| ==> s[k] != ':'
    ensures IndexOf(s, ':', from) == -1
    decreases |s| - from
  {
    if from < |s| {
      FindsNoColon(s, from + 1);
    }
  }

  /** A missing colon is reported as index -1, so the loop starts over. */
  lemma StartsOver(pre: string, tail: string)
    requires NoColon(tail)
    ensures Next(pre + tail, |pre|) == Whole(0)
  {
    var s := pre + tail;
    forall k | |pre| + 1 <= k < |s|
      ensures s[k] != ':'
    {
      assert s[k] == tail[1..][k - |pre| - 1];
    }
    FindsNoColon(s, |pre| + 1);
  }

  lemma NoColonLoops(script: string, ps: seq<Piece>, tail: string)
    requires Splits(script, ps, tail) && NoColon(tail)
    ensures Forever(script)
  {
    hide Next;
    WalksPieces(script, ps, tail);
    StartsOver(WriteAll(ps), tail);
    PositionsAdd(script, Whole(0), |ps|, 1);
    ComesBack(script, 0, |ps| + 1);
  }

  lemma OthersEnd(script: string, ps: seq<Piece>, tail: string)
    requires Splits(script, ps, tail) && (tail == "" || CutShort(tail))
    ensures !Forever(script)
  {
    WalksPieces(script, ps, tail);
    if tail != "" {
      var digits, text :| Digits(digits) && |text| < Value(digits) && tail == "i" + digits + ":" + text;
      DigitsHaveNoColon(digits);
      ReadsHeader(WriteAll(ps), 'i', digits, text);
      PositionsAdd(script, Whole(0), |ps|, 1);
      assert !Inside(script, Position(script, Whole(0), |ps| + 1));
    } else {
      assert !Inside(script, Position(script, Whole(0), |ps|));
    }
  }

  /** Among the scripts whose insertions have lengths made of digits, the loop runs for ever on
      exactly those that end in a command without a colon. */
  lemma LoopsForeverIff(disp: string, script: string)
    requires DigitLengths(script)
    ensures Process(disp, script).Diverges? <==> EndsWithoutColon(script)
  {
    EndsWithinLimit(disp, script);
    if EndsWithoutColon(script) {
      var ps, tail :| Splits(script, ps, tail) && NoColon(tail);
      NoColonLoops(script, ps, tail);
    } else {
      var ps, tail :| Splits(script, ps, tail) && (tail == "" || NoColon(tail) || CutShort(tail));
      assert !NoColon(tail);
      OthersEnd(script, ps, tail);
    }
  }

  lemma NegativeIsRead(pre: string, n: nat, post: string)
    ensures var s := pre + ("i-" + Decimal(n) + ":" + post);
            |pre| < |s| && Next(s, |pre|) == Whole(|pre| + 3 + |Decimal(n)| - n)
  {
    var head := "-" + Decimal(n);
    NegativeNumber(n);
    assert "i-" + Decimal(n) + ":" + post == ['i'] + head + ":" + post;
    ReadsHeader(pre, 'i', head, post);
  }

  /** An insertion with a negative length that leads back to a piece already read never ends either. */
  lemma BackwardInsertLoops(script: string, ps: seq<Piece>, n: nat, post: string, k: nat)
    requires AllProper(ps) && k <= |ps|
    requires script == WriteAll(ps) + ("i-" + Decimal(n) + ":" + post)
    requires |WriteAll(ps)| + 3 + |Decimal(n)| - n == |WriteAll(ps[..k])|
    ensures Forever(script)
  {
    hide Next, Write, WriteAll, Decimal;
    var tail := "i-" + Decimal(n) + ":" + post;
    WalksPieces(script, ps, tail);
    NegativeIsRead(WriteAll(ps), n, post);
    PositionsAdd(script, Whole(0), |ps|, 1);
    WriteAllSplits(ps, k);
    Assoc(WriteAll(ps[..k]), WriteAll(ps[k..]), tail);
    WalksPieces(script, ps[..k], WriteAll(ps[k..]) + tail);
    ComesBack(script, k, |ps| + 1);
  }

  lemma {:induction false} WriteAllSplits(ps: seq<Piece>, k: nat)
    requires k <= |ps|
    ensures WriteAll(ps) == WriteAll(ps[..k]) + WriteAll(ps[k..])
  {
    hide Write;
    if k == |ps| {
      assert ps[..k] == ps;
    } else {
      var n := |ps| - 1;
      WriteAllSplits(ps[..n], k);
      assert ps[..n][..k] == ps[..k] && ps[..n][k..] == ps[k..][..n - k];
      Assoc(WriteAll(ps[..k]), WriteAll(ps[k..][..n - k]), Write(ps[n]));
    }
  }

  /** One script of either kind: a keep without its colon, and an insertion of minus four. */
  lemma ScriptsThatLoop(disp: string)
    ensures Process(disp, "k3").Diverges? && Process(disp, "i-4:").Diverges?
  {
    hide Process, Forever;
    assert Splits("k3", [], "k3") && NoColon("k3");
    NoColonLoops("k3", [], "k3");
    EndsWithinLimit(disp, "k3");
    assert WriteAll([]) + ("i-" + Decimal(4) + ":" + "") == "i-4:";
    BackwardInsertLoops("i-4:", [], 4, "", 0);
    EndsWithinLimit(disp, "i-4:");
  }
}
