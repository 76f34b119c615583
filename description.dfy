/** The parser for the free-text description of a feed item (App.js:70-83):
    the description is cut into pieces at ` <br/>` plus a line break and four
    tabs, each piece loses its first line break plus four tabs and is cut at
    `: ` into a key and a value, pieces with an empty key are dropped, and the
    rest are folded into an object, later keys overwriting earlier ones. */
module Description {
  import opened Wrappers
  import opened JsStrings
  import opened Seqs

  /** The token between two key/value pieces. */
  const PairSeparator: string := " <br/>\n\t\t\t\t"
  /** The indentation removed from the front of each piece. */
  const Indentation: string := "\n\t\t\t\t"
  /** The token between a key and its value. */
  const KeySeparator: string := ": "

  /** The parsed object: each key maps to its value, or to `undefined` (None)
      when the piece had no `: `. */
  type Props = map<string, Option<string>>

  /** One piece, cleaned of its first indentation and cut at `: ` (`e2`). */
  function Fields(piece: string): (fields: seq<string>)
    ensures |fields| >= 1
  {
    Split(ReplaceFirst(piece, Indentation, ""), KeySeparator)
  }

  /** The filter `e2[0] !== ''`. */
  predicate HasKey(fields: seq<string>)
  {
    |fields| >= 1 && fields[0] != ""
  }

  /** `e2[1]`: the second segment, or `undefined` when there is none. */
  function ValueOf(fields: seq<string>): Option<string>
  {
    if |fields| >= 2 then Some(fields[1]) else None
  }

  /** The `reduce` that writes `a[e2[0]] = e2[1]` for each entry in turn. */
  function Collect(entries: seq<seq<string>>): (props: Props)
    requires forall k :: 0 <= k < |entries| ==> |entries[k]| >= 1
    ensures props.Keys == set k | 0 <= k < |entries| :: entries[k][0]
  {
    if entries == [] then map[]
    else
      var last := entries[|entries| - 1];
      var before := Collect(entries[..|entries| - 1]);
      var props := before[last[0] := ValueOf(last)];
      assert forall k :: 0 <= k < |entries| - 1 ==> entries[..|entries| - 1][k] == entries[k];
      props
  }

  /** The value a key ends up with is the one its last entry carries. */
  lemma {:induction false} CollectLastWins(entries: seq<seq<string>>, j: nat)
    requires forall k :: 0 <= k < |entries| ==> |entries[k]| >= 1
    requires j < |entries|
    requires forall l :: j < l < |entries| ==> entries[l][0] != entries[j][0]
    ensures entries[j][0] in Collect(entries)
    ensures Collect(entries)[entries[j][0]] == ValueOf(entries[j])
    decreases |entries|
  {
    var n := |entries|;
    var init := entries[..n - 1];
    if j < n - 1 {
      assert init[j] == entries[j];
      CollectLastWins(init, j);
    }
  }

  /** The object the source builds from one description. */
  function ParseDescription(description: string): (props: Props)
    ensures "" !in props
  {
    var entries := Filter(HasKey, Map(Fields, Split(description, PairSeparator)));
    Collect(entries)
  }

  /** One `key: value` line of a description as the feed writes it. */
  datatype Line = Line(key: string, value: string)

  function LineText(line: Line): string
  {
    line.key + KeySeparator + line.value
  }

  /** A line the parser reads back as written: a non-empty key, and no line
      break or `: ` inside the key or the value. */
  predicate WellFormed(line: Line)
  {
    && line.key != ""
    && (forall k :: 0 <= k < |line.key| ==> line.key[k] != '\n')
    && (forall k :: 0 <= k < |line.value| ==> line.value[k] != '\n')
    && !Includes(line.key, KeySeparator)
    && !Includes(line.value, KeySeparator)
  }

  /** A description built from lines, optionally starting with the indentation. */
  function Render(lead: string, lines: seq<Line>): string
    requires |lines| >= 1
  {
    lead + Join(Map(LineText, lines), PairSeparator)
  }

  lemma SeparatorsFirstCharUnique()
    ensures FirstCharUnique(PairSeparator) && FirstCharUnique(KeySeparator)
  {
  }

  /** A string whose only line breaks are at its front does not contain a
      token that has a line break further in. */
  lemma NoTokenWithoutChar(s: string, pat: string, i: nat)
    requires i < |pat|
    requires forall k :: i <= k < |s| ==> s[k] != pat[i]
    ensures !Includes(s, pat)
  {
  }

  /** A well-formed line's text holds no line break. */
  lemma LineTextOneLine(line: Line)
    requires WellFormed(line)
    ensures forall k :: 0 <= k < |LineText(line)| ==> LineText(line)[k] != '\n'
  {
    var text := LineText(line);
    forall k | 0 <= k < |text|
      ensures text[k] != '\n'
    {
      if k < |line.key| {
        assert text[k] == line.key[k];
      } else if k >= |line.key| + 2 {
        assert text[k] == line.value[k - |line.key| - 2];
      }
    }
  }

  /** The first piece of a rendered description, and every other piece, is one
      line's text, which holds no pair separator. */
  lemma LineHasNoPairSeparator(lead: string, line: Line)
    requires lead == "" || lead == Indentation
    requires WellFormed(line)
    ensures !Includes(lead + LineText(line), PairSeparator)
  {
    var text := LineText(line);
    LineTextOneLine(line);
    assert PairSeparator[6] == '\n';
    assert forall k :: 6 <= k < |lead + text| ==> (lead + text)[k] == text[k - |lead|];
    NoTokenWithoutChar(lead + text, PairSeparator, 6);
  }

  /** Removing the indentation from a piece leaves the line's text. */
  lemma LineUnindented(lead: string, line: Line)
    requires lead == "" || lead == Indentation
    requires WellFormed(line)
    ensures ReplaceFirst(lead + LineText(line), Indentation, "") == LineText(line)
  {
    var text := LineText(line);
    if lead == "" {
      LineTextOneLine(line);
      assert lead + text == text;
      AbsentWithoutFirstChar(text, Indentation);
    } else {
      RemoveLeading(Indentation, text);
    }
  }

  /** A piece of a rendered description is read back as its line's key and value. */
  lemma LineFields(lead: string, line: Line)
    requires lead == "" || lead == Indentation
    requires WellFormed(line)
    ensures !Includes(lead + LineText(line), PairSeparator)
    ensures Fields(lead + LineText(line)) == [line.key, line.value]
  {
    LineHasNoPairSeparator(lead, line);
    LineUnindented(lead, line);
    SeparatorsFirstCharUnique();
    assert Join([line.key, line.value], KeySeparator) == LineText(line);
    SplitJoin([line.key, line.value], KeySeparator);
  }

  /** Prefixing the first of several joined strings is prefixing the join. */
  lemma JoinLead(lead: string, texts: seq<string>, sep: string)
    requires |texts| >= 1
    ensures lead + Join(texts, sep) == Join([lead + texts[0]] + texts[1..], sep)
  {
    var pieces := [lead + texts[0]] + texts[1..];
    if |texts| > 1 {
      assert pieces[1..] == texts[1..];
    }
  }

  /** A filter that every element passes keeps everything. */
  lemma {:induction false} FilterKeepsAll<T>(p: T -> bool, s: seq<T>)
    requires forall k :: 0 <= k < |s| ==> p(s[k])
    ensures Filter(p, s) == s
  {
    if s != [] {
      FilterKeepsAll(p, s[1..]);
    }
  }

  /** The fields of a line: its key, then its value. */
  function Entry(line: Line): seq<string>
  {
    [line.key, line.value]
  }

  /** The pieces of a rendered description, cut at `: `, are its lines. */
  lemma RenderedFields(lead: string, lines: seq<Line>)
    requires lead == "" || lead == Indentation
    requires |lines| >= 1 && forall k :: 0 <= k < |lines| ==> WellFormed(lines[k])
    ensures Map(Fields, Split(Render(lead, lines), PairSeparator)) == Map(Entry, lines)
  {
    var texts := Map(LineText, lines);
    var pieces := [lead + texts[0]] + texts[1..];
    JoinLead(lead, texts, PairSeparator);
    forall k | 0 <= k < |pieces|
      ensures !Includes(pieces[k], PairSeparator)
      ensures Fields(pieces[k]) == Entry(lines[k])
    {
      if k == 0 {
        LineFields(lead, lines[0]);
      } else {
        LineFields("", lines[k]);
        assert "" + texts[k] == texts[k];
      }
    }
    SeparatorsFirstCharUnique();
    SplitJoin(pieces, PairSeparator);
  }

  /** Parsing a rendered description folds exactly its lines' entries. */
  lemma ParseRenderedCollects(lead: string, lines: seq<Line>)
    requires lead == "" || lead == Indentation
    requires |lines| >= 1 && forall k :: 0 <= k < |lines| ==> WellFormed(lines[k])
    ensures ParseDescription(Render(lead, lines)) == Collect(Map(Entry, lines))
  {
    var parts := Split(Render(lead, lines), PairSeparator);
    var fields := Map(Entry, lines);
    RenderedFields(lead, lines);
    assert Map(Fields, parts) == fields;
    assert forall k :: 0 <= k < |fields| ==> HasKey(fields[k]) by {
      forall k | 0 <= k < |fields|
        ensures HasKey(fields[k])
      {
        assert WellFormed(lines[k]);
      }
    }
    FilterKeepsAll(HasKey, fields);
  }

  /** Parsing a rendered description gives back each line's value under its
      key, the last line winning when a key repeats, and no other keys. */
  lemma ParseRendered(lead: string, lines: seq<Line>, j: nat)
    requires lead == "" || lead == Indentation
    requires |lines| >= 1 && forall k :: 0 <= k < |lines| ==> WellFormed(lines[k])
    requires j < |lines| && forall l :: j < l < |lines| ==> lines[l].key != lines[j].key
    ensures ParseDescription(Render(lead, lines)).Keys == set k | 0 <= k < |lines| :: lines[k].key
    ensures ParseDescription(Render(lead, lines))[lines[j].key] == Some(lines[j].value)
  {
    ParseRenderedCollects(lead, lines);
    var fields := Map(Entry, lines);
    CollectLastWins(fields, j);
    assert (set k | 0 <= k < |fields| :: fields[k][0]) == set k | 0 <= k < |lines| :: lines[k].key;
  }
}
