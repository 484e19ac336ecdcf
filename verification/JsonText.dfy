/** Quoting of names in the report of scripts/momwarn1_trade_second_counts.cpp: quotes and backslashes are
    escaped, control bytes refused. */
module JsonText {
  import opened Wrappers

  predicate Control(c: char) { c < ' ' }

  predicate Printable(value: string) { forall k :: 0 <= k < |value| ==> !Control(value[k]) }

  function Escape(c: char): string { if c == '"' || c == '\\' then ['\\', c] else [c] }

  function Escaped(value: string): string {
    if value == "" then "" else Escape(value[0]) + Escaped(value[1..])
  }

  /** What a reader of the text makes of it: a backslash stands for the character after it. */
  function Unescaped(text: string): string {
    if text == "" then ""
    else if text[0] == '\\' && |text| > 1 then [text[1]] + Unescaped(text[2..])
    else [text[0]] + Unescaped(text[1..])
  }

  method Quoted(value: string) returns (r: Option<string>)
    ensures r.Some? <==> Printable(value)
    ensures r.Some? ==> r.value == "\"" + Escaped(value) + "\""
  {
    var result := "\"";
    for i := 0 to |value|
      invariant Printable(value[..i]) && result == "\"" + Escaped(value[..i])
    {
      var c := value[i];
      if c < ' ' { return None; }
      EscapedAppend(value[..i], c);
      assert value[..i + 1] == value[..i] + [c];
      if c == '"' || c == '\\' { result := result + "\\"; }
      result := result + [c];
    }
    assert value[..|value|] == value;
    r := Some(result + "\"");
  }

  lemma {:induction false} EscapedAppend(value: string, c: char)
    ensures Escaped(value + [c]) == Escaped(value) + Escape(c)
  {
    hide Escape;
    if value == "" {
      assert Escaped([c]) == Escape(c) + Escaped("");
    } else {
      assert (value + [c])[1..] == value[1..] + [c];
      EscapedAppend(value[1..], c);
    }
  }

  lemma {:induction false} PrintableInFields(value: string)
    ensures Printable(value) <==> forall k :: 0 <= k < |value| ==> value[k] as int >= 32
  {
    if !Printable(value) {
      var k :| 0 <= k < |value| && Control(value[k]);
      assert value[k] as int < 32;
    }
  }

  /** No quote ends the text: each follows a backslash that escapes it. */
  predicate NoBareQuote(text: string) {
    || text == ""
    || (text[0] == '\\' && |text| > 1 && NoBareQuote(text[2..]))
    || (text[0] != '\\' && text[0] != '"' && NoBareQuote(text[1..]))
  }

  /** A printed name is one string: only its last quote ends it. */
  lemma {:induction false} QuotedIsOneString(value: string)
    ensures NoBareQuote(Escaped(value))
  {
    if value != "" {
      QuotedIsOneString(value[1..]);
      var rest := Escaped(value[1..]);
      assert Escaped(value) == Escape(value[0]) + rest;
      assert Escaped(value)[|Escape(value[0])|..] == rest;
    }
  }

  /** The name can be read back. */
  lemma {:induction false} QuotedReadsBack(value: string)
    ensures Unescaped(Escaped(value)) == value
  {
    hide Escape;
    if value != "" {
      QuotedReadsBack(value[1..]);
      UnescapeNext(value[0], Escaped(value[1..]));
      assert value == [value[0]] + value[1..];
    }
  }

  lemma {:induction false} UnescapeNext(c: char, rest: string)
    ensures Unescaped(Escape(c) + rest) == [c] + Unescaped(rest)
  {
    var text := Escape(c) + rest;
    assert text[|Escape(c)|..] == rest;
  }
}
