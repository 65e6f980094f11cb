/**
 * backup_helper::log: the message handed to the standard loggers and, when
 * asked for, the call that sends the untranslated message on for display.
 */
module HelperLog {
  import opened Results
  import opened PhpStrings

  /** The $a argument: nothing in PHP's empty() sense, a single text, or a list of texts. */
  datatype LogArg = Absent | Text(s: string) | Items(xs: seq<string>)

  /** What reaches $logger->process: the message, the level, and the depth option if there is one. */
  datatype LoggerCall = LoggerCall(message: string, level: int, depth: Option<int>)

  /** What reaches the output controller: the untranslated message, $a and the depth. */
  datatype OutputCall = OutputCall(message: string, a: LogArg, depth: int)

  /** empty($a) */
  predicate ArgEmpty(a: LogArg) {
    match a
    case Absent => true
    case Text(s) => s == "" || s == "0"
    case Items(xs) => xs == []
  }

  /** (array)$a: a text becomes a one-element list. */
  function AsList(a: LogArg): seq<string> {
    match a
    case Absent => []
    case Text(s) => [s]
    case Items(xs) => xs
  }

  /** implode(', ', xs) */
  function Implode(xs: seq<string>): string
    decreases |xs|
  {
    if xs == [] then ""
    else if |xs| == 1 then xs[0]
    else Implode(xs[..|xs| - 1]) + ", " + xs[|xs| - 1]
  }

  /** The total length of the texts in a list. */
  function TotalLength(xs: seq<string>): nat
    decreases |xs|
  {
    if xs == [] then 0 else TotalLength(xs[..|xs| - 1]) + |xs[|xs| - 1]|
  }

  /** implode puts exactly one ", " between neighbours: its length is the items' plus two per gap. */
  lemma {:induction false} ImplodeLength(xs: seq<string>)
    requires xs != []
    ensures |Implode(xs)| == TotalLength(xs) + 2 * (|xs| - 1)
  {
    if |xs| > 1 {
      ImplodeLength(xs[..|xs| - 1]);
    } else {
      assert xs[..0] == [];
    }
  }

  /** implode begins with the first item and ends with the last. */
  lemma {:induction false} ImplodeEnds(xs: seq<string>)
    requires xs != []
    ensures |xs[0]| <= |Implode(xs)| && Implode(xs)[..|xs[0]|] == xs[0]
    ensures |xs[|xs| - 1]| <= |Implode(xs)| && Implode(xs)[|Implode(xs)| - |xs[|xs| - 1]|..] == xs[|xs| - 1]
  {
    if |xs| > 1 {
      var init := xs[..|xs| - 1];
      ImplodeEnds(init);
      assert init[0] == xs[0];
      var r := Implode(xs);
      assert r == Implode(init) + ", " + xs[|xs| - 1];
      assert r[..|xs[0]|] == Implode(init)[..|xs[0]|];
    }
  }

  /** Where implode puts item i: after the items before it and one ", " per item before it. */
  function ItemOffset(xs: seq<string>, i: nat): nat
    requires i <= |xs|
  {
    TotalLength(xs[..i]) + 2 * i
  }

  /** Counting one more item adds its length. */
  lemma TotalLengthStep(xs: seq<string>, i: nat)
    requires i < |xs|
    ensures TotalLength(xs[..i + 1]) == TotalLength(xs[..i]) + |xs[i]|
  {
    assert xs[..i + 1][..i] == xs[..i];
  }

  /**
   * Every item of implode(', ', xs) is in it, in order: item i sits at
   * ItemOffset(xs, i), and a ", " follows it unless it is the last.
   */
  lemma {:induction false} ImplodeItemAt(xs: seq<string>, i: nat)
    requires i < |xs|
    ensures OccursAt(Implode(xs), xs[i], ItemOffset(xs, i))
    ensures i + 1 < |xs| ==> OccursAt(Implode(xs), ", ", ItemOffset(xs, i) + |xs[i]|)
  {
    if |xs| == 1 {
      assert xs[..0] == [];
      assert Implode(xs)[0..|xs[0]|] == xs[0];
    } else {
      var init := xs[..|xs| - 1];
      var tail := ", " + xs[|xs| - 1];
      assert Implode(xs) == Implode(init) + tail;
      ImplodeLength(init);
      var k := ItemOffset(xs, i);
      if i == |xs| - 1 {
        assert xs[..i] == init;
        assert tail[2..2 + |xs[i]|] == xs[i];
        OccursShifted(Implode(init), tail, xs[i], 2);
      } else {
        ImplodeItemAt(init, i);
        assert init[..i] == xs[..i];
        OccursExtended(Implode(init), tail, xs[i], k);
        if i + 1 < |init| {
          OccursExtended(Implode(init), tail, ", ", k + |xs[i]|);
        } else {
          TotalLengthStep(xs, i);
          assert xs[..i + 1] == init;
          assert tail[0..2] == ", ";
          OccursShifted(Implode(init), tail, ", ", 0);
        }
      }
    }
  }

  /** The message sent to the loggers: the message, then a space and $a's items when $a is not empty. */
  function LogMessage(message: string, a: LogArg): string
  {
    if ArgEmpty(a) then message else message + " " + Implode(AsList(a))
  }

  /**
   * log: the logger call, and the output call exactly when display is set.
   * The depth option is present exactly when the depth is not empty (0).
   */
  function Log(message: string, level: int, a: LogArg, depth: int, display: bool): (r: (LoggerCall, Option<OutputCall>))
    ensures r.0.level == level
    ensures r.0.depth.Some? <==> depth != 0
    ensures r.0.depth.Some? ==> r.0.depth.value == depth
    ensures r.1.Some? <==> display
  {
    var options := if depth == 0 then None else Some(depth);
    var output := if display then Some(OutputCall(message, a, depth)) else None;
    (LoggerCall(LogMessage(message, a), level, options), output)
  }

  /** The logged message starts with the message, and the display gets the message untouched. */
  lemma LoggedMessageExtends(message: string, level: int, a: LogArg, depth: int, display: bool)
    ensures var r := Log(message, level, a, depth, display);
      && |message| <= |r.0.message| && r.0.message[..|message|] == message
      && (r.1.Some? ==> r.1.value.message == message && r.1.value.a == a && r.1.value.depth == depth)
  {
  }

  /** With one non-empty item, the logged message is the message, a space and that item. */
  lemma SingleItemLogged(message: string, s: string)
    requires s != "" && s != "0"
    ensures LogMessage(message, Text(s)) == message + " " + s
  {
  }

  /**
   * An empty $a logs the bare message; otherwise the message, one space, and
   * every item of $a in order, each at its place in the join.
   */
  lemma LoggedItems(message: string, a: LogArg)
    ensures ArgEmpty(a) ==> LogMessage(message, a) == message
    ensures !ArgEmpty(a) ==> OccursAt(LogMessage(message, a), message + " ", 0)
    ensures !ArgEmpty(a) ==> forall i :: 0 <= i < |AsList(a)| ==>
      OccursAt(LogMessage(message, a), AsList(a)[i], |message| + 1 + ItemOffset(AsList(a), i))
  {
    if !ArgEmpty(a) {
      var xs := AsList(a);
      var head := message + " ";
      assert LogMessage(message, a) == head + Implode(xs);
      assert (head + Implode(xs))[0..|head|] == head;
      forall i | 0 <= i < |xs|
        ensures OccursAt(head + Implode(xs), xs[i], |head| + ItemOffset(xs, i))
      {
        ImplodeItemAt(xs, i);
        OccursShifted(head, Implode(xs), xs[i], ItemOffset(xs, i));
      }
    }
  }

  /** Nothing of $a is dropped: the logged message is longer than the message by exactly its items, separators and one space. */
  lemma LoggedLength(message: string, a: LogArg)
    requires !ArgEmpty(a)
    ensures |LogMessage(message, a)| == |message| + 1 + TotalLength(AsList(a)) + 2 * (|AsList(a)| - 1)
  {
    ImplodeLength(AsList(a));
  }
}
