/**
 * `format_alerts_for_slack`: the text of the Slack notification. Each `+=`
 * of the source appends one line and its newline; the message is the title,
 * a blank line, then seven lines per alert in the order given, the last of
 * them a dashed separator. How a timestamp, a price and a percentage are
 * turned into text (`str` of a pandas Timestamp, `str` of a float, `:.2f`)
 * is a parameter.
 */
module Slack {
  import opened Records

  /** The renderings the f-strings apply to a timestamp, a price and a percent change. */
  datatype Renderers = Renderers(stamp: int -> string, price: real -> string, percent: real -> string)

  const Title: string := "\U{1F514} *Alerte Volatilit\U{E9}* \U{1F514}:"
  const Dashes: string := "---------------------------------------"
  const CryptoLabel: string := "*Crypto*          : "
  const TimeLabel: string := "*Heure*           : "
  const StartLabel: string := "*Prix Pr\U{E9}c\U{E9}dent*  : "
  const EndLabel: string := "*Prix Actuel*     : "
  const ChangeLabel: string := "*Variation*       : "
  const IntervalLabel: string := "*Intervalle*      : "

  /** The seven lines about one alert, the last one the dashed separator. */
  function BlockLines(a: AlertRow, rend: Renderers): (ls: seq<string>)
    ensures |ls| == 7 && ls[6] == Dashes
  {
    [CryptoLabel + a.crypto,
     TimeLabel + rend.stamp(a.timestamp),
     StartLabel + rend.price(a.startPrice) + " USD",
     EndLabel + rend.price(a.endPrice) + " USD",
     ChangeLabel + rend.percent(a.priceChangePct) + "%",
     IntervalLabel + a.timeInterval,
     Dashes]
  }

  /** The lines of the message for `alerts`: the title, a blank line, then each alert's block. */
  function MessageLines(alerts: seq<AlertRow>, rend: Renderers): (ls: seq<string>)
    ensures |ls| == 2 + 7 * |alerts|
  {
    if alerts == [] then [Title, ""]
    else MessageLines(alerts[..|alerts| - 1], rend) + BlockLines(alerts[|alerts| - 1], rend)
  }

  /** Lines joined, each followed by a newline. */
  function Joined(ls: seq<string>): string
  {
    if ls == [] then "" else Joined(ls[..|ls| - 1]) + (ls[|ls| - 1] + "\n")
  }

  lemma JoinedPush(ls: seq<string>, l: string)
    ensures Joined(ls + [l]) == Joined(ls) + (l + "\n")
  {
    assert (ls + [l])[..|ls|] == ls;
  }

  /** Pushing an alert's seven lines one by one gives that alert's block. */
  lemma PushBlock(ls: seq<string>, a: AlertRow, rend: Renderers)
    ensures ls + [CryptoLabel + a.crypto] + [TimeLabel + rend.stamp(a.timestamp)]
      + [StartLabel + rend.price(a.startPrice) + " USD"] + [EndLabel + rend.price(a.endPrice) + " USD"]
      + [ChangeLabel + rend.percent(a.priceChangePct) + "%"] + [IntervalLabel + a.timeInterval] + [Dashes]
      == ls + BlockLines(a, rend)
  {
  }

  /** One pass of the loop: the seven `+=` that append one alert's lines. */
  method AppendBlock(text: string, ghost lines: seq<string>, alert: AlertRow, rend: Renderers) returns (out: string)
    requires text == Joined(lines)
    ensures out == Joined(lines + BlockLines(alert, rend))
  {
    ghost var ls := lines;
    var line := CryptoLabel + alert.crypto;
    JoinedPush(ls, line);
    out, ls := text + (line + "\n"), ls + [line];
    line := TimeLabel + rend.stamp(alert.timestamp);
    JoinedPush(ls, line);
    out, ls := out + (line + "\n"), ls + [line];
    line := StartLabel + rend.price(alert.startPrice) + " USD";
    JoinedPush(ls, line);
    out, ls := out + (line + "\n"), ls + [line];
    line := EndLabel + rend.price(alert.endPrice) + " USD";
    JoinedPush(ls, line);
    out, ls := out + (line + "\n"), ls + [line];
    line := ChangeLabel + rend.percent(alert.priceChangePct) + "%";
    JoinedPush(ls, line);
    out, ls := out + (line + "\n"), ls + [line];
    line := IntervalLabel + alert.timeInterval;
    JoinedPush(ls, line);
    out, ls := out + (line + "\n"), ls + [line];
    line := Dashes;
    JoinedPush(ls, line);
    out, ls := out + (line + "\n"), ls + [line];
    PushBlock(lines, alert, rend);
  }

  /** `format_alerts_for_slack(alerts)`: `None` for no alerts, else the header and every alert's block. */
  method FormatAlertsForSlack(alerts: seq<AlertRow>, rend: Renderers) returns (message: Option<string>)
    ensures message.None? <==> alerts == []
    ensures message.Some? ==> message.value == Joined(MessageLines(alerts, rend))
  {
    if alerts == [] {
      return None;
    }
    var text := Title + "\n" + "\n";
    ghost var lines := [Title, ""];
    assert Joined([Title]) == Title + "\n" by {
      JoinedPush([], Title);
    }
    JoinedPush([Title], "");
    assert [Title] + [""] == lines;
    for i := 0 to |alerts|
      invariant lines == MessageLines(alerts[..i], rend)
      invariant text == Joined(lines)
    {
      text := AppendBlock(text, lines, alerts[i], rend);
      lines := lines + BlockLines(alerts[i], rend);
      assert alerts[..i + 1][..i] == alerts[..i];
    }
    assert alerts[..|alerts|] == alerts;
    return Some(text);
  }

  /** The `k`-th alert's seven lines follow the title, the blank line and the blocks of the alerts before it. */
  lemma {:induction false} BlockAt(alerts: seq<AlertRow>, rend: Renderers, k: nat)
    requires k < |alerts|
    ensures MessageLines(alerts, rend)[2 + 7 * k .. 2 + 7 * k + 7] == BlockLines(alerts[k], rend)
  {
    var init, last := alerts[..|alerts| - 1], alerts[|alerts| - 1];
    var a, b := MessageLines(init, rend), BlockLines(last, rend);
    assert MessageLines(alerts, rend) == a + b;
    if k < |init| {
      BlockAt(init, rend, k);
      assert init[k] == alerts[k];
      assert (a + b)[2 + 7 * k .. 2 + 7 * k + 7] == a[2 + 7 * k .. 2 + 7 * k + 7];
    } else {
      assert (a + b)[|a|..] == b;
    }
  }

  /** The index of the first newline of `s`, or `|s|` when it has none. */
  function LineEnd(s: string): (k: nat)
    ensures k <= |s|
    ensures k < |s| ==> s[k] == '\n'
  {
    if s == [] || s[0] == '\n' then 0 else 1 + LineEnd(s[1..])
  }

  /** Cuts text into its lines, dropping the newline after each; text after the last newline is a last line. */
  function SplitLines(s: string): seq<string>
    decreases |s|
  {
    if s == [] then []
    else
      var k := LineEnd(s);
      if k == |s| then [s] else [s[..k]] + SplitLines(s[k + 1..])
  }

  predicate OneLine(l: string)
  {
    '\n' !in l
  }

  lemma {:induction false} LineEndOf(l: string, rest: string)
    requires OneLine(l)
    ensures LineEnd(l + "\n" + rest) == |l|
  {
    if l != [] {
      assert (l + "\n" + rest)[1..] == l[1..] + "\n" + rest;
      LineEndOf(l[1..], rest);
    }
  }

  /** Joining lines one after another is joining the first and then the rest. */
  lemma {:induction false} JoinedFront(ls: seq<string>)
    requires ls != []
    ensures Joined(ls) == ls[0] + "\n" + Joined(ls[1..])
  {
    if |ls| > 1 {
      var init, last := ls[..|ls| - 1], ls[|ls| - 1];
      JoinedFront(init);
      assert init[1..] == ls[1..][..|ls| - 2];
      assert init[0] == ls[0];
      assert Joined(ls[1..]) == Joined(init[1..]) + (last + "\n");
    } else {
      assert ls[..0] == [] && ls[1..] == [];
    }
  }

  /** Cutting joined lines gives the lines back, when none of them holds a newline. */
  lemma {:induction false} SplitJoined(ls: seq<string>)
    requires forall i :: 0 <= i < |ls| ==> OneLine(ls[i])
    ensures SplitLines(Joined(ls)) == ls
  {
    if ls != [] {
      JoinedFront(ls);
      var s, rest := Joined(ls), Joined(ls[1..]);
      LineEndOf(ls[0], rest);
      assert s[..|ls[0]|] == ls[0];
      assert s[|ls[0]| + 1..] == rest;
      SplitJoined(ls[1..]);
      assert ls == [ls[0]] + ls[1..];
    }
  }

  lemma OneLineJoin(a: string, b: string)
    requires OneLine(a) && OneLine(b)
    ensures OneLine(a + b)
  {
  }

  /** No field an alert's block shows spans more than one line. */
  ghost predicate Printable(a: AlertRow, rend: Renderers)
  {
    OneLine(a.crypto) && OneLine(rend.stamp(a.timestamp)) && OneLine(rend.price(a.startPrice))
    && OneLine(rend.price(a.endPrice)) && OneLine(rend.percent(a.priceChangePct)) && OneLine(a.timeInterval)
  }

  lemma FixedTextOneLine()
    ensures OneLine(Title) && OneLine("") && OneLine(Dashes) && OneLine(" USD") && OneLine("%")
  {
  }

  lemma LabelsOneLine()
    ensures OneLine(CryptoLabel) && OneLine(TimeLabel) && OneLine(StartLabel)
  {
  }

  lemma MoreLabelsOneLine()
    ensures OneLine(EndLabel) && OneLine(ChangeLabel) && OneLine(IntervalLabel)
  {
  }

  lemma BlockOneLine(a: AlertRow, rend: Renderers)
    requires Printable(a, rend)
    ensures forall i :: 0 <= i < 7 ==> OneLine(BlockLines(a, rend)[i])
  {
    FixedTextOneLine();
    LabelsOneLine();
    MoreLabelsOneLine();
    OneLineJoin(CryptoLabel, a.crypto);
    OneLineJoin(TimeLabel, rend.stamp(a.timestamp));
    OneLineJoin(StartLabel, rend.price(a.startPrice));
    OneLineJoin(StartLabel + rend.price(a.startPrice), " USD");
    OneLineJoin(EndLabel, rend.price(a.endPrice));
    OneLineJoin(EndLabel + rend.price(a.endPrice), " USD");
    OneLineJoin(ChangeLabel, rend.percent(a.priceChangePct));
    OneLineJoin(ChangeLabel + rend.percent(a.priceChangePct), "%");
    OneLineJoin(IntervalLabel, a.timeInterval);
  }

  lemma {:induction false} MessageOneLine(alerts: seq<AlertRow>, rend: Renderers)
    requires forall i :: 0 <= i < |alerts| ==> Printable(alerts[i], rend)
    ensures forall i :: 0 <= i < |MessageLines(alerts, rend)| ==> OneLine(MessageLines(alerts, rend)[i])
  {
    if alerts == [] {
      FixedTextOneLine();
    } else {
      var init, last := alerts[..|alerts| - 1], alerts[|alerts| - 1];
      assert forall i :: 0 <= i < |init| ==> init[i] == alerts[i];
      MessageOneLine(init, rend);
      BlockOneLine(last, rend);
      var a, b := MessageLines(init, rend), BlockLines(last, rend);
      forall i | 0 <= i < |a + b| ensures OneLine((a + b)[i]) {
        if i >= |a| {
          assert (a + b)[i] == b[i - |a|];
        } else {
          assert (a + b)[i] == a[i];
        }
      }
    }
  }

  /**
   * Read back line by line, the message is exactly its title, a blank line
   * and the seven lines of each alert in input order: `2 + 7 * |alerts|` lines.
   */
  lemma MessageReadsBack(alerts: seq<AlertRow>, rend: Renderers)
    requires forall i :: 0 <= i < |alerts| ==> Printable(alerts[i], rend)
    ensures SplitLines(Joined(MessageLines(alerts, rend))) == MessageLines(alerts, rend)
    ensures |SplitLines(Joined(MessageLines(alerts, rend)))| == 2 + 7 * |alerts|
  {
    MessageOneLine(alerts, rend);
    SplitJoined(MessageLines(alerts, rend));
  }

  /** How many of the lines `ls` are the dashed separator. */
  function SeparatorCount(ls: seq<string>): nat
  {
    if ls == [] then 0 else SeparatorCount(ls[..|ls| - 1]) + (if ls[|ls| - 1] == Dashes then 1 else 0)
  }

  lemma {:induction false} SeparatorCountAppend(a: seq<string>, b: seq<string>)
    ensures SeparatorCount(a + b) == SeparatorCount(a) + SeparatorCount(b)
  {
    if b == [] {
      assert a + b == a;
    } else {
      assert (a + b)[..|a + b| - 1] == a + b[..|b| - 1];
      SeparatorCountAppend(a, b[..|b| - 1]);
    }
  }

  /** Lines none of which is the separator count zero. */
  lemma {:induction false} SeparatorCountNone(ls: seq<string>)
    requires forall i :: 0 <= i < |ls| ==> ls[i] != Dashes
    ensures SeparatorCount(ls) == 0
  {
    if ls != [] {
      SeparatorCountNone(ls[..|ls| - 1]);
    }
  }

  /** A line opening with `'*'`, as every labelled line does, is never the separator. */
  lemma StarredIsNotDashes(l: string)
    requires |l| >= 1 && l[0] == '*'
    ensures l != Dashes
  {
    assert Dashes[0] == '-';
  }

  lemma LabelsStarred()
    ensures CryptoLabel[0] == '*' && TimeLabel[0] == '*' && StartLabel[0] == '*'
    ensures EndLabel[0] == '*' && ChangeLabel[0] == '*' && IntervalLabel[0] == '*'
    ensures Title != Dashes && "" != Dashes
  {
    assert Title[0] != Dashes[0];
  }

  /** One line of each block is the separator. */
  lemma BlockSeparators(a: AlertRow, rend: Renderers)
    ensures SeparatorCount(BlockLines(a, rend)) == 1
  {
    var ls := BlockLines(a, rend);
    LabelsStarred();
    forall i | 0 <= i < 6 ensures ls[..6][i] != Dashes {
      assert ls[i][0] == '*';
      StarredIsNotDashes(ls[i]);
    }
    SeparatorCountNone(ls[..6]);
  }

  /** The message carries one separator line per alert, and no other. */
  lemma {:induction false} SeparatorPerAlert(alerts: seq<AlertRow>, rend: Renderers)
    ensures SeparatorCount(MessageLines(alerts, rend)) == |alerts|
  {
    if alerts == [] {
      LabelsStarred();
      SeparatorCountNone([Title, ""]);
    } else {
      var init, last := alerts[..|alerts| - 1], alerts[|alerts| - 1];
      SeparatorPerAlert(init, rend);
      BlockSeparators(last, rend);
      SeparatorCountAppend(MessageLines(init, rend), BlockLines(last, rend));
    }
  }
}
