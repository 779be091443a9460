/** Reading four cards typed by the player (src/com/solver/Game.java:41-92).
    Each line is split into tokens and checked: a line is accepted when it
    has exactly four tokens and every one is a valid label. While a line
    with four tokens is checked, each valid token is converted to its rank
    text and appended to an accumulator, with a space after it unless it is
    the fourth; the accumulator is never cleared, so the valid leading tokens
    of a rejected line stay in it. Once a line is accepted, or the input
    ends, the accumulator is split at its spaces and its first four words are
    parsed as the cards. */
module Input {
  import opened Wrappers
  import opened Decimal
  import opened Cards
  import opened Sequences

  // ----- The accumulator's text ---------------------------------------------

  /** Each word followed by one space. */
  function Spaced(ws: seq<string>): string {
    if ws == [] then "" else ws[0] + " " + Spaced(ws[1..])
  }

  /** The words with one space between each two. */
  function Joined(ws: seq<string>): string
    requires ws != []
  {
    Spaced(ws[..|ws| - 1]) + ws[|ws| - 1]
  }

  lemma {:induction false} SpacedAppend(a: seq<string>, b: seq<string>)
    ensures Spaced(a + b) == Spaced(a) + Spaced(b)
  {
    if a != [] {
      assert (a + b)[1..] == a[1..] + b;
      SpacedAppend(a[1..], b);
    } else {
      assert a + b == b;
    }
  }

  lemma {:induction false} JoinedAppend(a: seq<string>, b: seq<string>)
    requires b != []
    ensures Spaced(a) + Joined(b) == Joined(a + b)
  {
    assert (a + b)[..|a + b| - 1] == a + b[..|b| - 1];
    SpacedAppend(a, b[..|b| - 1]);
  }

  // ----- Splitting the accumulator ------------------------------------------

  /** The pieces of `s` between its spaces, empty ones included. */
  function Segments(s: string): (r: seq<string>)
    ensures |r| > 0
  {
    if s == [] then [""]
    else
      var rest := Segments(s[1..]);
      if s[0] == ' ' then [""] + rest else [[s[0]] + rest[0]] + rest[1..]
  }

  function DropTrailingEmpty(ws: seq<string>): seq<string> {
    if ws != [] && ws[|ws| - 1] == "" then DropTrailingEmpty(ws[..|ws| - 1]) else ws
  }

  /** `split("\\s+")` on text whose spaces are single: a string without a
      space is its own only word; otherwise the pieces between the spaces,
      without the empty ones at the end. */
  function Words(s: string): seq<string> {
    if ' ' in s then DropTrailingEmpty(Segments(s)) else [s]
  }

  predicate IsWord(w: string) {
    0 < |w| && ' ' !in w
  }

  predicate AllWords(ws: seq<string>) {
    forall m :: 0 <= m < |ws| ==> IsWord(ws[m])
  }

  lemma {:induction false} SegmentsOfWord(w: string, rest: string)
    requires ' ' !in w
    ensures Segments(w + rest) == [w + Segments(rest)[0]] + Segments(rest)[1..]
  {
    var r := Segments(rest);
    if w != [] {
      var s := w + rest;
      assert s[0] == w[0] && s[0] != ' ';
      assert s[1..] == w[1..] + rest;
      SegmentsOfWord(w[1..], rest);
      assert [w[0]] + (w[1..] + r[0]) == w + r[0];
    } else {
      assert w + rest == rest;
      assert w + r[0] == r[0];
      assert r == [r[0]] + r[1..];
    }
  }

  lemma {:induction false} SegmentsAfterSpace(x: string)
    ensures Segments(" " + x) == [""] + Segments(x)
  {
    assert (" " + x)[1..] == x;
  }

  lemma {:induction false} SegmentsWordSpace(w: string, x: string)
    requires ' ' !in w
    ensures Segments(w + (" " + x)) == [w] + Segments(x)
  {
    SegmentsOfWord(w, " " + x);
    SegmentsAfterSpace(x);
    assert w + "" == w;
  }

  lemma {:induction false} SegmentsSpaced(ws: seq<string>, tail: string)
    requires AllWords(ws)
    ensures Segments(Spaced(ws) + tail) == ws + Segments(tail)
  {
    if ws != [] {
      var x := Spaced(ws[1..]) + tail;
      ConcatAssoc4(ws[0], " ", Spaced(ws[1..]), tail);
      SegmentsWordSpace(ws[0], x);
      SegmentsSpaced(ws[1..], tail);
      ConcatAssoc([ws[0]], ws[1..], Segments(tail));
      HeadTail(ws);
    } else {
      EmptyLeft(tail);
    }
  }

  lemma {:induction false} SpacedHasSpace(ws: seq<string>)
    requires ws != []
    ensures ' ' in Spaced(ws)
  {
    assert Spaced(ws)[|ws[0]|] == ' ';
  }

  /** Splitting what the valid tokens appended gives them back. */
  lemma {:induction false} WordsSpaced(ws: seq<string>)
    requires ws != [] && AllWords(ws)
    ensures Words(Spaced(ws)) == ws
  {
    SegmentsSpaced(ws, "");
    assert Spaced(ws) + "" == Spaced(ws);
    SpacedHasSpace(ws);
    assert DropTrailingEmpty(ws + [""]) == DropTrailingEmpty(ws);
    assert |ws[|ws| - 1]| > 0;
  }

  lemma {:induction false} WordsJoined(ws: seq<string>)
    requires ws != [] && AllWords(ws)
    ensures Words(Joined(ws)) == ws
  {
    var (init, last) := (ws[..|ws| - 1], ws[|ws| - 1]);
    assert ws == init + [last];
    SegmentsSpaced(init, last);
    SegmentsOfWord(last, "");
    assert last + "" == last;
    if init == [] {
      assert Joined(ws) == last;
    } else {
      SpacedHasSpace(init);
      assert Spaced(init) <= Joined(ws);
      assert Joined(ws)[|init[0]|] == Spaced(init)[|init[0]|];
      assert |ws[|ws| - 1]| > 0;
    }
  }

  // ----- One attempt ----------------------------------------------------------

  /** How many of a line's four tokens, from the front, are valid labels:
      the index at which the check stops. */
  function ValidRun(tokens: seq<string>): (p: nat)
    requires |tokens| == 4
    ensures p <= 4
    ensures forall m :: 0 <= m < p ==> tokens[m] in VALID_INPUTS
    ensures p < 4 ==> tokens[p] !in VALID_INPUTS
  {
    if tokens[0] !in VALID_INPUTS then 0
    else if tokens[1] !in VALID_INPUTS then 1
    else if tokens[2] !in VALID_INPUTS then 2
    else if tokens[3] !in VALID_INPUTS then 3
    else 4
  }

  /** The line is accepted: four tokens, none of them invalid. */
  predicate Accepts(tokens: seq<string>) {
    |tokens| == 4 && ValidRun(tokens) == 4
  }

  /** The rank texts of the tokens. */
  function Converted(tokens: seq<string>): (r: seq<string>)
    ensures |r| == |tokens|
    ensures forall m :: 0 <= m < |tokens| ==> r[m] == ConvertCard(tokens[m])
  {
    if tokens == [] then [] else [ConvertCard(tokens[0])] + Converted(tokens[1..])
  }

  /** The valid labels an attempt keeps: none when the line does not have
      four tokens, otherwise those before the first invalid one. */
  function KeptOf(tokens: seq<string>): seq<string> {
    if |tokens| == 4 then tokens[..ValidRun(tokens)] else []
  }

  /** The text an attempt appends to the accumulator. */
  function Appended(tokens: seq<string>): string {
    var kept := Converted(KeptOf(tokens));
    if Accepts(tokens) then Joined(kept) else Spaced(kept)
  }

  /** The tokens after an attempt: those checked and found valid are
      replaced by their rank texts. */
  function Rewritten(tokens: seq<string>): seq<string> {
    Converted(KeptOf(tokens)) + tokens[|KeptOf(tokens)|..]
  }

  /** An attempt is accepted exactly when the line has four tokens and all of
      them are valid labels. */
  lemma {:induction false} AcceptsIff(tokens: seq<string>)
    ensures Accepts(tokens) <==> |tokens| == 4 && forall m :: 0 <= m < 4 ==> tokens[m] in VALID_INPUTS
  {
  }

  /** The tokens once the first `i` have been checked and converted. */
  function Progress(line: seq<string>, i: nat): seq<string>
    requires i <= |line|
  {
    Converted(line[..i]) + line[i..]
  }

  /** The text appended once the first `i` of four tokens have been checked
      and found valid. */
  function Partial(line: seq<string>, i: nat): string
    requires |line| == 4 && i <= 4
  {
    if i == 4 then Joined(Converted(line)) else Spaced(Converted(line[..i]))
  }

  /** Converting the token at `i` in place extends the converted prefix by
      one. */
  lemma {:induction false} RewriteStep(line: seq<string>, i: nat)
    requires i < |line|
    ensures Progress(line, i + 1) == Progress(line, i)[i := ConvertCard(line[i])]
  {
    var (front, w) := (Converted(line[..i]), ConvertCard(line[i]));
    assert line[..i + 1] == line[..i] + [line[i]];
    ConvertedAppend(line[..i], [line[i]]);
    assert Converted([line[i]]) == [w];
    assert line[i..] == [line[i]] + line[i + 1..];
    assert (front + ([line[i]] + line[i + 1..]))[i := w] == front + [w] + line[i + 1..];
  }

  /** Appending the rank text of the valid token at `i`, with a space after
      it unless it is the fourth. */
  lemma {:induction false} AppendStep(acc: string, line: seq<string>, i: nat)
    requires |line| == 4 && i < 4
    ensures acc + Partial(line, i + 1) == acc + Partial(line, i) + ConvertCard(line[i]) + (if i == 3 then "" else " ")
  {
    var (front, w) := (Converted(line[..i]), ConvertCard(line[i]));
    ConvertedSnoc(line, i);
    if i == 3 {
      assert line[..4] == line;
      JoinedSnoc(front, w);
      ConcatAssoc(acc, Spaced(front), w);
      EmptyRight(acc + Spaced(front) + w);
    } else {
      SpacedSnoc(front, w);
      ConcatAssoc(acc, Spaced(front), w + " ");
      ConcatAssoc4(acc, Spaced(front), w, " ");
    }
  }

  lemma {:induction false} ConvertedSnoc(line: seq<string>, i: nat)
    requires i < |line|
    ensures Converted(line[..i + 1]) == Converted(line[..i]) + [ConvertCard(line[i])]
  {
    assert line[..i + 1] == line[..i] + [line[i]];
    ConvertedAppend(line[..i], [line[i]]);
    assert Converted([line[i]]) == [ConvertCard(line[i])];
  }

  lemma {:induction false} SpacedSnoc(ws: seq<string>, w: string)
    ensures Spaced(ws + [w]) == Spaced(ws) + (w + " ")
  {
    SpacedAppend(ws, [w]);
    assert [w][1..] == [];
  }

  lemma {:induction false} JoinedSnoc(ws: seq<string>, w: string)
    ensures Joined(ws + [w]) == Spaced(ws) + w
  {
    var s := ws + [w];
    assert s[..|s| - 1] == ws;
  }

  /** Before any token is checked nothing has changed. */
  lemma {:induction false} AttemptStart(line: seq<string>)
    requires |line| == 4
    ensures Progress(line, 0) == line && Partial(line, 0) == ""
  {
    assert line[..0] == [] && line[0..] == line;
    assert Converted([]) == [];
  }

  /** An attempt stopped by the invalid token at `i`. */
  lemma {:induction false} AttemptStops(line: seq<string>, i: nat)
    requires |line| == 4 && i < 4
    requires forall m :: 0 <= m < i ==> line[m] in VALID_INPUTS
    requires line[i] !in VALID_INPUTS
    ensures !Accepts(line)
    ensures Appended(line) == Partial(line, i)
    ensures Rewritten(line) == Progress(line, i)
  {
    assert ValidRun(line) == i;
  }

  /** An attempt whose four tokens were all valid. */
  lemma {:induction false} AttemptDone(line: seq<string>)
    requires |line| == 4
    requires forall m :: 0 <= m < 4 ==> line[m] in VALID_INPUTS
    ensures Accepts(line)
    ensures Appended(line) == Partial(line, 4)
    ensures Rewritten(line) == Progress(line, 4)
  {
    assert ValidRun(line) == 4;
    assert line[..4] == line;
  }

  /** An attempt on a line without four tokens changes nothing. */
  lemma {:induction false} AttemptWrongLength(line: seq<string>)
    requires |line| != 4
    ensures !Accepts(line) && Appended(line) == "" && Rewritten(line) == line
  {
    assert Converted([]) == [] && Spaced([]) == "";
    assert line[0..] == line;
  }

  /** One attempt on the tokens of a line, as the loop at Game.java:56-75
      runs it: the tokens found valid are converted in place and appended to
      the accumulator, and the attempt is accepted after the fourth. */
  method CheckAttempt(tokens: array<string>, acc: string) returns (acc': string, accepted: bool)
    modifies tokens
    ensures accepted == Accepts(old(tokens[..]))
    ensures acc' == acc + Appended(old(tokens[..]))
    ensures tokens[..] == Rewritten(old(tokens[..]))
  {
    ghost var line := tokens[..];
    acc', accepted := acc, false;
    if tokens.Length != 4 {
      AttemptWrongLength(line);
      return;
    }
    AttemptStart(line);
    for i := 0 to 4
      invariant tokens[..] == Progress(line, i)
      invariant forall m :: 0 <= m < i ==> line[m] in VALID_INPUTS
      invariant accepted <==> i == 4
      invariant acc' == acc + Partial(line, i)
    {
      assert tokens[i] == line[i];
      if tokens[i] !in VALID_INPUTS {
        AttemptStops(line, i);
        return;
      }
      RewriteStep(line, i);
      AppendStep(acc, line, i);
      tokens[i] := ConvertCard(tokens[i]);
      if i == 3 {
        acc' := acc' + tokens[i];
        accepted := true;
      } else {
        acc' := acc' + tokens[i] + " ";
      }
    }
    AttemptDone(line);
  }

  // ----- All attempts -----------------------------------------------------------

  /** The accumulator after the attempts on `lines`, starting from `acc`,
      up to and including the first accepted one. */
  function Accumulate(lines: seq<seq<string>>, acc: string): string
    decreases |lines|
  {
    if lines == [] then acc
    else
      var acc' := acc + Appended(lines[0]);
      if Accepts(lines[0]) then acc' else Accumulate(lines[1..], acc')
  }

  /** One attempt of the reading loop, seen from the remaining lines. */
  lemma {:induction false} AccumulateStep(lines: seq<seq<string>>, r: nat, acc: string)
    requires r < |lines|
    ensures Accumulate(lines[r..], acc)
         == if Accepts(lines[r]) then acc + Appended(lines[r])
            else Accumulate(lines[r + 1..], acc + Appended(lines[r]))
  {
    assert lines[r..][0] == lines[r];
    assert lines[r..][1..] == lines[r + 1..];
  }

  predicate AnyAccepted(lines: seq<seq<string>>) {
    exists r :: 0 <= r < |lines| && Accepts(lines[r])
  }

  /** The valid labels kept by the attempts on `lines`, up to and including
      the first accepted one. */
  function Kept(lines: seq<seq<string>>): seq<string>
    decreases |lines|
  {
    if lines == [] then []
    else if Accepts(lines[0]) then KeptOf(lines[0])
    else KeptOf(lines[0]) + Kept(lines[1..])
  }

  /** `Integer.parseInt` of each word, or `None` if one of them fails. */
  function ParseAll(ws: seq<string>): (r: Option<seq<int>>)
    ensures r.Some? <==> forall m :: 0 <= m < |ws| ==> ParseInt(ws[m]).Some?
    ensures r.Some? ==> |r.value| == |ws| && forall m :: 0 <= m < |ws| ==> r.value[m] == ParseInt(ws[m]).value
  {
    if ws == [] then Some([])
    else
      var head, tail := ParseInt(ws[0]), ParseAll(ws[1..]);
      if head.Some? && tail.Some? then Some([head.value] + tail.value) else None
  }

  /** `Integer.parseInt` of the first four words; `None` where the source
      throws, because there are fewer than four words or one of them is not
      a number. */
  function FirstFour(ws: seq<string>): (r: Option<seq<int>>)
    ensures r.Some? <==> |ws| >= 4 && forall m :: 0 <= m < 4 ==> ParseInt(ws[m]).Some?
    ensures r.Some? ==> |r.value| == 4 && forall m :: 0 <= m < 4 ==> r.value[m] == ParseInt(ws[m]).value
  {
    if |ws| < 4 then None
    else
      assert forall m :: 0 <= m < 4 ==> ws[..4][m] == ws[m];
      ParseAll(ws[..4])
  }

  /** The cards read from `lines`: the first four words of the accumulator. */
  function ReadCards(lines: seq<seq<string>>): Option<seq<int>> {
    FirstFour(Words(Accumulate(lines, "")))
  }

  function Ranks(cards: seq<string>): (r: seq<int>)
    requires forall m :: 0 <= m < |cards| ==> cards[m] in VALID_INPUTS
    ensures |r| == |cards|
    ensures forall m :: 0 <= m < |cards| ==> r[m] == Rank(cards[m])
  {
    if cards == [] then [] else [Rank(cards[0])] + Ranks(cards[1..])
  }

  // ----- What the accumulator holds -------------------------------------------

  predicate AllValid(cards: seq<string>) {
    forall m :: 0 <= m < |cards| ==> cards[m] in VALID_INPUTS
  }

  lemma {:induction false} KeptOfValid(tokens: seq<string>)
    ensures AllValid(KeptOf(tokens))
    ensures Accepts(tokens) ==> KeptOf(tokens) == tokens
  {
  }

  lemma {:induction false} KeptValid(lines: seq<seq<string>>)
    ensures AllValid(Kept(lines))
    ensures AnyAccepted(lines) ==> |Kept(lines)| >= 4
    decreases |lines|
  {
    if lines != [] {
      KeptOfValid(lines[0]);
      if !Accepts(lines[0]) {
        KeptValid(lines[1..]);
        if AnyAccepted(lines) {
          var r :| 0 <= r < |lines| && Accepts(lines[r]);
          assert Accepts(lines[1..][r - 1]);
        }
      }
    }
  }

  lemma {:induction false} ConvertedAppend(a: seq<string>, b: seq<string>)
    ensures Converted(a + b) == Converted(a) + Converted(b)
  {
    if a == [] {
      assert a + b == b;
    } else {
      assert (a + b)[1..] == a[1..] + b;
      ConvertedAppend(a[1..], b);
    }
  }

  lemma {:induction false} AnyAcceptedTail(lines: seq<seq<string>>)
    requires lines != [] && !Accepts(lines[0])
    ensures AnyAccepted(lines) <==> AnyAccepted(lines[1..])
  {
    if AnyAccepted(lines) {
      var r :| 0 <= r < |lines| && Accepts(lines[r]);
      assert r > 0 && Accepts(lines[1..][r - 1]);
    }
    if AnyAccepted(lines[1..]) {
      var r :| 0 <= r < |lines[1..]| && Accepts(lines[1..][r]);
      assert Accepts(lines[r + 1]);
    }
  }

  /** The step of a rejected attempt: its kept labels are spelled out, each
      followed by a space. */
  lemma {:induction false} RejectedStep(tokens: seq<string>, done: seq<string>)
    requires !Accepts(tokens)
    ensures Spaced(Converted(done)) + Appended(tokens) == Spaced(Converted(done + KeptOf(tokens)))
  {
    ConvertedAppend(done, KeptOf(tokens));
    SpacedAppend(Converted(done), Converted(KeptOf(tokens)));
  }

  lemma {:induction false} AcceptedStep(tokens: seq<string>, done: seq<string>)
    requires Accepts(tokens)
    ensures KeptOf(tokens) != []
    ensures Spaced(Converted(done)) + Appended(tokens) == Joined(Converted(done + KeptOf(tokens)))
  {
    ConvertedAppend(done, KeptOf(tokens));
    JoinedAppend(Converted(done), Converted(KeptOf(tokens)));
  }

  /** The text spelling out the rank texts of `ws`, each followed by a
      space, except after the last one when a line was accepted. */
  function Shown(accepted: bool, ws: seq<string>): string {
    if accepted && ws != [] then Joined(Converted(ws)) else Spaced(Converted(ws))
  }

  lemma {:induction false} RejectedCase(lines: seq<seq<string>>, done: seq<string>)
    requires lines != [] && !Accepts(lines[0])
    requires Accumulate(lines[1..], Spaced(Converted(done + KeptOf(lines[0]))))
          == Shown(AnyAccepted(lines[1..]), done + KeptOf(lines[0]) + Kept(lines[1..]))
    ensures Accumulate(lines, Spaced(Converted(done))) == Shown(AnyAccepted(lines), done + Kept(lines))
  {
    RejectedStep(lines[0], done);
    KeptRejected(lines, done);
    AnyAcceptedTail(lines);
  }

  lemma {:induction false} KeptRejected(lines: seq<seq<string>>, done: seq<string>)
    requires lines != [] && !Accepts(lines[0])
    ensures done + KeptOf(lines[0]) + Kept(lines[1..]) == done + Kept(lines)
  {
    var head, tail := KeptOf(lines[0]), Kept(lines[1..]);
    assert Kept(lines) == head + tail;
    assert done + head + tail == done + (head + tail);
  }

  /** The accumulator spells out the rank texts of the kept labels, each
      followed by a space, except after the fourth label of an accepted line. */
  lemma {:induction false} AccumulateIsKept(lines: seq<seq<string>>, done: seq<string>)
    ensures Accumulate(lines, Spaced(Converted(done))) == Shown(AnyAccepted(lines), done + Kept(lines))
    decreases |lines|
  {
    if lines == [] {
      assert done + [] == done;
      assert !AnyAccepted(lines);
    } else if Accepts(lines[0]) {
      assert AnyAccepted(lines) by { assert Accepts(lines[0]); }
      AcceptedStep(lines[0], done);
    } else {
      AccumulateIsKept(lines[1..], done + KeptOf(lines[0]));
      RejectedCase(lines, done);
    }
  }

  lemma {:induction false} ConvertedWords(cards: seq<string>)
    requires AllValid(cards)
    ensures AllWords(Converted(cards))
  {
    forall m | 0 <= m < |cards| ensures IsWord(Converted(cards)[m]) {
      ConvertRank(cards[m]);
      RankTextShape(ConvertCard(cards[m]));
    }
  }

  lemma {:induction false} ParseAllRanks(cards: seq<string>)
    requires AllValid(cards)
    ensures ParseAll(Converted(cards)) == Some(Ranks(cards))
  {
    if cards != [] {
      var c := Converted(cards);
      ConvertRank(cards[0]);
      assert c[1..] == Converted(cards[1..]);
      ParseAllRanks(cards[1..]);
      assert ParseAll(c) == Some([Rank(cards[0])] + Ranks(cards[1..]));
    }
  }

  /** Four valid labels, converted and parsed, give their ranks. */
  lemma {:induction false} HandRanks(hand: seq<string>)
    requires |hand| == 4 && AllValid(hand)
    ensures FirstFour(Converted(hand)) == Some(Ranks(hand))
  {
    ParseAllRanks(hand);
    assert Converted(hand)[..4] == Converted(hand);
  }

  /** The accumulator built from kept labels splits back into their rank
      texts. */
  lemma {:induction false} WordsOfShown(accepted: bool, k: seq<string>)
    requires k != [] && AllValid(k)
    ensures Words(Shown(accepted, k)) == Converted(k)
  {
    ConvertedWords(k);
    if accepted {
      WordsJoined(Converted(k));
    } else {
      WordsSpaced(Converted(k));
    }
  }

  /** The first four of at least four kept labels parse to their ranks. */
  lemma {:induction false} FirstFourRanks(k: seq<string>)
    requires |k| >= 4 && AllValid(k)
    ensures FirstFour(Converted(k)) == Some(Ranks(k[..4]))
  {
    assert Converted(k)[..4] == Converted(k[..4]);
    ParseAllRanks(k[..4]);
  }

  /** The cards are the ranks of the first four valid labels kept across all
      attempts, accepted or not; if fewer than four were kept, the source
      throws. */
  lemma {:induction false} ReadCardsKept(lines: seq<seq<string>>)
    ensures AllValid(Kept(lines))
    ensures ReadCards(lines) == if |Kept(lines)| < 4 then None else Some(Ranks(Kept(lines)[..4]))
  {
    var k := Kept(lines);
    KeptValid(lines);
    assert Spaced(Converted([])) == "";
    AccumulateIsKept(lines, []);
    assert [] + k == k;
    if k == [] {
      assert Accumulate(lines, "") == "";
    } else {
      WordsOfShown(AnyAccepted(lines), k);
      if |k| >= 4 {
        FirstFourRanks(k);
      }
    }
  }

  /** A line accepted on the first attempt gives the ranks of its four
      labels, in order. */
  lemma {:induction false} FirstAttempt(lines: seq<seq<string>>)
    requires lines != [] && Accepts(lines[0])
    ensures AllValid(lines[0])
    ensures ReadCards(lines) == Some(Ranks(lines[0]))
  {
    ReadCardsKept(lines);
    KeptOfValid(lines[0]);
    assert lines[0][..4] == lines[0];
  }

  /** Every card read is a rank from 1 to 13, and there are four of them. */
  lemma {:induction false} ReadCardsRanks(lines: seq<seq<string>>)
    requires ReadCards(lines).Some?
    ensures |ReadCards(lines).value| == 4
    ensures forall m :: 0 <= m < 4 ==> 1 <= ReadCards(lines).value[m] <= 13
  {
    ReadCardsKept(lines);
  }

  /** The rank of the label at position `m` is `m + 1`. */
  lemma {:induction false} RankAt(m: nat)
    requires m < 13
    ensures Rank(VALID_INPUTS[m]) == m + 1
  {
    ValidDistinct();
  }

  lemma {:induction false} RanksOfFirstLabels(cards: seq<string>)
    requires cards == ["A", "2", "3", "4"]
    ensures Ranks(cards) == [1, 2, 3, 4]
  {
    var r := Ranks(cards);
    forall m | 0 <= m < 4 ensures r[m] == m + 1 {
      assert cards[m] == VALID_INPUTS[m];
      RankAt(m);
    }
  }

  lemma {:induction false} KeptRejectedThenAccepted(lines: seq<seq<string>>)
    requires |lines| == 2 && !Accepts(lines[0]) && Accepts(lines[1])
    ensures Kept(lines) == KeptOf(lines[0]) + lines[1]
  {
    assert Kept(lines[1..]) == KeptOf(lines[1]);
  }

  lemma {:induction false} LeftoverKept(lines: seq<seq<string>>)
    requires lines == [["A", "2", "X", "4"], ["3", "4", "5", "6"]]
    ensures |Kept(lines)| == 6 && Kept(lines)[..4] == ["A", "2", "3", "4"]
  {
    StopsAtX(lines[0]);
    AcceptsDigits(lines[1]);
    KeptRejectedThenAccepted(lines);
  }

  lemma {:induction false} StopsAtX(tokens: seq<string>)
    requires tokens == ["A", "2", "X", "4"]
    ensures KeptOf(tokens) == ["A", "2"] && !Accepts(tokens)
  {
    assert ValidRun(tokens) == 2;
  }

  lemma {:induction false} AcceptsDigits(tokens: seq<string>)
    requires tokens == ["3", "4", "5", "6"]
    ensures Accepts(tokens)
  {
    assert tokens[0] == VALID_INPUTS[2] && tokens[1] == VALID_INPUTS[3];
    assert tokens[2] == VALID_INPUTS[4] && tokens[3] == VALID_INPUTS[5];
  }

  /** The labels 3, 4, 5 and 6 are the valid labels at positions 2 to 5. */
  lemma {:induction false} DigitsPositions(tokens: seq<string>)
    requires tokens == ["3", "4", "5", "6"]
    ensures |tokens| == 4 && forall m :: 0 <= m < 4 ==> tokens[m] == VALID_INPUTS[m + 2]
  {
    assert tokens[0] == VALID_INPUTS[2] && tokens[1] == VALID_INPUTS[3];
    assert tokens[2] == VALID_INPUTS[4] && tokens[3] == VALID_INPUTS[5];
  }

  /** The accumulator is never cleared: the valid "A 2" of a line rejected
      for its "X" stay in front of the accepted "3 4 5 6", and the cards are
      1, 2, 3 and 4 rather than 3, 4, 5 and 6. The lines are a parameter
      fixed by the precondition rather than a literal in the statement, which
      keeps the verifier from unfolding the literal in every step. */
  lemma {:induction false} LeftoverExample(lines: seq<seq<string>>)
    requires lines == [["A", "2", "X", "4"], ["3", "4", "5", "6"]]
    ensures ReadCards(lines) == Some([1, 2, 3, 4])
  {
    LeftoverKept(lines);
    ReadCardsKept(lines);
    RanksOfFirstLabels(Kept(lines)[..4]);
  }

  // ----- What the loop was evidently meant to read ----------------------------

  /** The ranks of the first accepted line, or `None` if no line is
      accepted: the cards the player typed on the attempt that succeeded. */
  function Intended(lines: seq<seq<string>>): (r: Option<seq<int>>)
    ensures r.Some? <==> AnyAccepted(lines)
    decreases |lines|
  {
    if lines == [] then None
    else if Accepts(lines[0]) then
      KeptOfValid(lines[0]);
      assert AnyAccepted(lines) by { assert Accepts(lines[0]); }
      Some(Ranks(lines[0]))
    else
      AnyAcceptedTail(lines);
      Intended(lines[1..])
  }

  /** A rejected line does not change what is intended from there on. */
  lemma {:induction false} IntendedStep(lines: seq<seq<string>>, r: nat)
    requires r < |lines|
    ensures Intended(lines[r..]) == if Accepts(lines[r]) then Some(Ranks(lines[r])) else Intended(lines[r + 1..])
  {
    assert lines[r..][0] == lines[r];
    assert lines[r..][1..] == lines[r + 1..];
    KeptOfValid(lines[r]);
  }

  /** The text an accepted line appends on its own reads back as the ranks
      of its labels. */
  lemma {:induction false} AcceptedReadsBack(line: seq<string>)
    requires Accepts(line)
    ensures AllValid(line)
    ensures FirstFour(Words(Appended(line))) == Some(Ranks(line))
  {
    KeptOfValid(line);
    ConvertedWords(line);
    WordsJoined(Converted(line));
    HandRanks(line);
  }

  /** When the first line is accepted, the source reads what was intended. */
  lemma {:induction false} FirstAttemptIntended(lines: seq<seq<string>>)
    requires lines != [] && Accepts(lines[0])
    ensures ReadCards(lines) == Intended(lines)
  {
    FirstAttempt(lines);
  }

  lemma {:induction false} RanksOfDigits(cards: seq<string>)
    requires |cards| == 4 && forall m :: 0 <= m < 4 ==> cards[m] == VALID_INPUTS[m + 2]
    ensures Ranks(cards) == [3, 4, 5, 6]
  {
    forall m | 0 <= m < 4 ensures Ranks(cards)[m] == m + 3 {
      RankAt(m + 2);
    }
    FourElements(Ranks(cards), 3, 4, 5, 6);
  }

  /** A rejected line followed by an accepted one: the intended cards are
      the accepted line's. */
  lemma {:induction false} IntendedSecond(lines: seq<seq<string>>)
    requires |lines| == 2 && !Accepts(lines[0]) && Accepts(lines[1])
    ensures AllValid(lines[1]) && Intended(lines) == Some(Ranks(lines[1]))
  {
    IntendedStep(lines, 0);
    IntendedStep(lines, 1);
    assert lines[0..] == lines;
    KeptOfValid(lines[1]);
  }

  /** On the lines of `LeftoverExample` the intended cards are 3, 4, 5 and
      6, while the source reads 1, 2, 3 and 4.
      The lines are a parameter fixed by the precondition rather than a
      literal in the lemma's statement, which keeps the verifier from
      unfolding the literal in every step. */
  lemma {:induction false} LeftoverDiffers(lines: seq<seq<string>>)
    requires lines == [["A", "2", "X", "4"], ["3", "4", "5", "6"]]
    ensures Intended(lines) == Some([3, 4, 5, 6])
    ensures ReadCards(lines) != Intended(lines)
  {
    StopsAtX(lines[0]);
    AcceptsDigits(lines[1]);
    IntendedSecond(lines);
    DigitsPositions(lines[1]);
    RanksOfDigits(lines[1]);
    LeftoverExample(lines);
    DifferentCards();
  }

  lemma DifferentCards()
    ensures Some([1, 2, 3, 4]) != Some([3, 4, 5, 6])
  {
    assert [1, 2, 3, 4][0] != [3, 4, 5, 6][0];
  }

}
