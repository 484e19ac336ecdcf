/** `fields` of scripts/momwarn1_trade_second_counts.cpp: a CSV line cut at the commas that no quote
    encloses. A doubled quote inside quotes is skipped as a pair, which leaves the quoting as it was. */
module CsvFields {
  import opened Wrappers

  const MAX_FIELDS := 32

  // ---------------------------------------------------------------- meaning

  function Quotes(line: string): nat {
    if line == "" then 0 else Quotes(line[..|line| - 1]) + if line[|line| - 1] == '"' then 1 else 0
  }

  predicate Balanced(line: string) { Quotes(line) % 2 == 0 }

  /** A separator opens a new field; any other character extends the last one. */
  function Feed(parts: seq<string>, c: char, separates: bool): (r: seq<string>)
    requires |parts| > 0
    ensures |r| == |parts| + if separates then 1 else 0
  {
    if separates then parts + [""] else parts[..|parts| - 1] + [parts[|parts| - 1] + [c]]
  }

  lemma {:induction false} FeedConcat(a: seq<string>, rest: seq<string>, c: char, separates: bool)
    requires |rest| > 0
    ensures Feed(a + rest, c, separates) == a + Feed(rest, c, separates)
  {
    if separates {
      assert a + rest + [""] == a + (rest + [""]);
    } else {
      var n := |rest|;
      assert (a + rest)[..|a| + n - 1] == a + rest[..n - 1];
      assert a + rest[..n - 1] + [rest[n - 1] + [c]] == a + (rest[..n - 1] + [rest[n - 1] + [c]]);
    }
  }

  lemma {:induction false} FeedOpen(open: string, c: char)
    ensures Feed([open], c, false) == [open + [c]]
    ensures Feed([open], c, true) == [open, ""]
  {
  }

  /** A comma separates exactly when an even number of quotes precedes it. */
  function SplitFields(line: string): (parts: seq<string>)
    ensures |parts| > 0
  {
    if line == "" then [""]
    else
      var front, c := line[..|line| - 1], line[|line| - 1];
      Feed(SplitFields(front), c, c == ',' && Balanced(front))
  }

  function Join(parts: seq<string>): string
    requires |parts| > 0
  {
    if |parts| == 1 then parts[0] else Join(parts[..|parts| - 1]) + "," + parts[|parts| - 1]
  }

  /** One whole field: its quotes close, and its commas are all quoted. */
  predicate Closed(part: string) {
    Balanced(part) && SplitFields(part) == [part]
  }

  // ---------------------------------------------------------------- round trips

  /** The fields, joined by commas, are the line. */
  lemma {:induction false} JoinSplit(line: string)
    ensures Join(SplitFields(line)) == line
  {
    if line != "" {
      var front, c := line[..|line| - 1], line[|line| - 1];
      JoinSplit(front);
      JoinFeed(SplitFields(front), c, c == ',' && Balanced(front));
      assert front + [c] == line;
    }
  }

  lemma {:induction false} JoinFeed(parts: seq<string>, c: char, separates: bool)
    requires |parts| > 0 && (separates ==> c == ',')
    ensures Join(Feed(parts, c, separates)) == Join(parts) + [c]
  {
    var n := |parts|;
    var fed := Feed(parts, c, separates);
    if separates {
      assert fed[..n] == parts;
      assert Join(parts) + "," + "" == Join(parts) + [c];
    } else if n > 1 {
      assert fed[..n - 1] == parts[..n - 1];
      assert Join(fed) == Join(parts[..n - 1]) + "," + (parts[n - 1] + [c]);
    }
  }

  lemma {:induction false} QuotesConcat(a: string, b: string)
    ensures Quotes(a + b) == Quotes(a) + Quotes(b)
  {
    if b == "" {
      assert a + b == a;
    } else {
      assert (a + b)[..|a + b| - 1] == a + b[..|b| - 1];
      QuotesConcat(a, b[..|b| - 1]);
    }
  }

  /** A separating comma splits the work in two. */
  lemma {:induction false} SplitConcat(a: string, b: string)
    requires Balanced(a)
    ensures SplitFields(a + "," + b) == SplitFields(a) + SplitFields(b)
    ensures Balanced(a + "," + b) == Balanced(b)
  {
    hide Feed, Quotes;
    var line := a + "," + b;
    CommaKeepsQuotes(a, b);
    if b == "" {
      assert line[..|line| - 1] == a;
      FeedConcat(SplitFields(a), [""], ',', true);
      SeparatorOpens(SplitFields(a));
    } else {
      var front, c := b[..|b| - 1], b[|b| - 1];
      assert line[..|line| - 1] == a + "," + front && line[|line| - 1] == c;
      SplitConcat(a, front);
      FeedConcat(SplitFields(a), SplitFields(front), c, c == ',' && Balanced(front));
    }
  }

  lemma {:induction false} SeparatorOpens(parts: seq<string>)
    requires |parts| > 0
    ensures Feed(parts, ',', true) == parts + SplitFields("")
  {
  }

  lemma {:induction false} CommaKeepsQuotes(a: string, b: string)
    ensures Quotes(a + "," + b) == Quotes(a) + Quotes(b)
  {
    QuotesConcat(a + ",", b);
    QuotesConcat(a, ",");
    assert Quotes(",") == Quotes("") == 0 by { assert ","[..0] == ""; }
  }

  /** Whole fields, joined by commas, are cut back into themselves. */
  lemma {:induction false} SplitJoin(parts: seq<string>)
    requires |parts| > 0 && forall k :: 0 <= k < |parts| ==> Closed(parts[k])
    ensures Balanced(Join(parts)) && SplitFields(Join(parts)) == parts
  {
    hide Feed, Quotes;
    var n := |parts|;
    assert Closed(parts[n - 1]);
    if n == 1 {
      assert parts == [parts[0]];
    } else {
      var front := parts[..n - 1];
      SplitJoin(front);
      SplitConcat(Join(front), parts[n - 1]);
      assert parts == front + [parts[n - 1]];
    }
  }

  /** A field free of quotes and commas is whole. */
  lemma {:induction false} PlainIsClosed(part: string)
    requires '"' !in part && ',' !in part
    ensures Quotes(part) == 0 && Closed(part)
  {
    if part != "" {
      var front := part[..|part| - 1];
      assert forall c :: c in front ==> c in part;
      assert part[|part| - 1] in part;
      PlainIsClosed(front);
      FeedOpen(front, part[|part| - 1]);
      assert front + [part[|part| - 1]] == part;
    }
  }

  /** A field in quotes is whole, whatever commas it holds. */
  lemma {:induction false} QuotedIsClosed(text: string)
    requires '"' !in text
    ensures Closed("\"" + text + "\"")
  {
    var open, whole := "\"" + text, "\"" + text + "\"";
    OpenQuote(text);
    assert whole[..|whole| - 1] == open;
    FeedOpen(open, '"');
  }

  /** An open quote keeps commas from separating. */
  lemma {:induction false} OpenQuote(text: string)
    requires '"' !in text
    ensures Quotes("\"" + text) == 1 && SplitFields("\"" + text) == ["\"" + text]
  {
    var open := "\"" + text;
    if text == "" {
      assert open[..0] == "" && open == [] + ['"'];
      FeedOpen("", '"');
    } else {
      var front, c := text[..|text| - 1], text[|text| - 1];
      assert c in text && forall x :: x in front ==> x in text;
      OpenQuote(front);
      assert open[..|open| - 1] == "\"" + front && "\"" + front + [c] == open;
      FeedOpen("\"" + front, c);
    }
  }

  /** Whole fields side by side are one, so a doubled quote inside quotes is part of the field. */
  lemma {:induction false} ClosedConcat(a: string, b: string)
    requires Closed(a) && Closed(b)
    ensures Closed(a + b)
  {
    QuotesConcat(a, b);
    SplitPrefixed(a, b);
  }

  function Prefixed(a: string, parts: seq<string>): seq<string>
    requires |parts| > 0
  {
    [a + parts[0]] + parts[1..]
  }

  lemma {:induction false} SplitPrefixed(a: string, b: string)
    requires Closed(a)
    ensures SplitFields(a + b) == Prefixed(a, SplitFields(b))
  {
    hide Feed;
    if b == "" {
      assert a + b == a && a + "" == a;
    } else {
      var front, c := b[..|b| - 1], b[|b| - 1];
      SplitPrefixed(a, front);
      QuotesConcat(a, front);
      assert (a + b)[..|a + b| - 1] == a + front;
      FeedPrefixed(a, SplitFields(front), c, c == ',' && Balanced(front));
    }
  }

  lemma {:induction false} FeedPrefixed(a: string, parts: seq<string>, c: char, separates: bool)
    requires |parts| > 0
    ensures Feed(Prefixed(a, parts), c, separates) == Prefixed(a, Feed(parts, c, separates))
  {
    var n, p := |parts|, Prefixed(a, parts);
    if separates {
      assert p + [""] == Prefixed(a, parts + [""]);
    } else if n == 1 {
      assert p[..0] == [] && parts[..0] == [];
      assert a + parts[0] + [c] == a + (parts[0] + [c]);
    } else {
      assert p[..n - 1] + [parts[n - 1] + [c]] == Prefixed(a, parts[..n - 1] + [parts[n - 1] + [c]]);
    }
  }

  // ---------------------------------------------------------------- the scanner

  /** What a well-formed line yields: too many fields or an unclosed quote is an error. */
  function Parse(line: string): Option<seq<string>> {
    if |SplitFields(line)| <= MAX_FIELDS && Balanced(line) then Some(SplitFields(line)) else None
  }

  lemma {:induction false} SplitGrows(line: string, n: nat)
    requires n <= |line|
    ensures |SplitFields(line[..n])| <= |SplitFields(line)|
  {
    if n < |line| {
      SplitGrows(line[..|line| - 1], n);
      assert line[..|line| - 1][..n] == line[..n];
    } else {
      assert line[..n] == line;
    }
  }

  /** Where the loop stands after i characters: the closed fields, and where the open one begins. */
  ghost predicate At(line: string, i: nat, parts: seq<string>, begin: nat, quote: bool) {
    && begin <= i <= |line|
    && SplitFields(line[..i]) == parts + [line[begin..i]]
    && quote == !Balanced(line[..i])
  }

  lemma {:induction false} NextCharacter(line: string, i: nat)
    requires i < |line|
    ensures SplitFields(line[..i + 1]) == Feed(SplitFields(line[..i]), line[i], line[i] == ',' && Balanced(line[..i]))
    ensures Balanced(line[..i + 1]) == (Balanced(line[..i]) != (line[i] == '"'))
  {
    hide Feed;
    var next := line[..i + 1];
    assert next[..|next| - 1] == line[..i] && next[|next| - 1] == line[i];
  }

  lemma {:induction false} Step(line: string, i: nat, parts: seq<string>, begin: nat, quote: bool)
    requires At(line, i, parts, begin, quote) && i < |line|
    ensures line[i] == '"' ==> At(line, i + 1, parts, begin, !quote)
    ensures line[i] == ',' && !quote ==> At(line, i + 1, parts + [line[begin..i]], i + 1, quote)
    ensures line[i] != '"' && (line[i] != ',' || quote) ==> At(line, i + 1, parts, begin, quote)
  {
    hide SplitFields, Balanced, Feed;
    var open := line[begin..i];
    NextCharacter(line, i);
    FeedConcat(parts, [open], line[i], line[i] == ',' && !quote);
    FeedOpen(open, line[i]);
    assert open + [line[i]] == line[begin..i + 1];
    assert line[i + 1..i + 1] == "";
    assert parts + [open, ""] == parts + [open] + [""];
  }

  method Fields(line: string) returns (r: Option<seq<string>>)
    ensures r == Parse(line)
  {
    hide At, SplitFields;
    var quote, begin, parts := false, 0, [];
    var i := 0;
    StartAt(line);
    while i < |line|
      invariant 0 <= i <= |line| && 0 <= begin <= i && |parts| <= MAX_FIELDS
      invariant At(line, i, parts, begin, quote)
    {
      Step(line, i, parts, begin, quote);
      if line[i] == '"' {
        if quote && i + 1 < |line| && line[i + 1] == '"' {
          Step(line, i + 1, parts, begin, !quote);
          i := i + 1;
        } else {
          quote := !quote;
        }
      } else if line[i] == ',' && !quote {
        if |parts| == MAX_FIELDS {
          TooMany(line, i, parts, begin, quote);
          return None;
        }
        parts := parts + [line[begin..i]];
        begin := i + 1;
      }
      i := i + 1;
    }
    if |parts| == MAX_FIELDS {
      TooMany(line, i, parts, begin, quote);
      return None;
    }
    EndAt(line, parts, begin, quote);
    parts := parts + [line[begin..]];
    r := if quote then None else Some(parts);
  }

  lemma {:induction false} StartAt(line: string)
    ensures At(line, 0, [], 0, false)
  {
    assert line[..0] == "";
  }

  lemma {:induction false} TooMany(line: string, i: nat, parts: seq<string>, begin: nat, quote: bool)
    requires At(line, i, parts, begin, quote) && |parts| == MAX_FIELDS
    ensures Parse(line) == None
  {
    SplitGrows(line, i);
  }

  lemma {:induction false} EndAt(line: string, parts: seq<string>, begin: nat, quote: bool)
    requires At(line, |line|, parts, begin, quote)
    ensures SplitFields(line) == parts + [line[begin..]] && quote == !Balanced(line)
  {
    assert line[..|line|] == line;
  }
}
