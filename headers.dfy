/**
 * Parsing of the finished message: the split of the message into header
 * block and body at the first blank line, the grouping of physical header
 * lines into logical (folded) headers, and their routing to the envelope or
 * to the encrypted part.
 */
module Headers {
  import opened Wrappers
  import opened Text

  /** `message.split('\r\n\r\n')` followed by `shift()` for the header and
      `join('\r\n\r\n')` of what is left for the body. */
  datatype MessageParts = MessageParts(header: string, body: string)

  function SplitMessage(message: string): (p: MessageParts)
    ensures IndexOf(message, BLANK_LINE).None? ==> p.header == message && p.body == ""
    ensures IndexOf(message, BLANK_LINE).Some? ==>
              var i := IndexOf(message, BLANK_LINE).value;
              p.header == message[..i] && p.body == message[i + |BLANK_LINE|..] &&
              p.header + BLANK_LINE + p.body == message
    ensures Free(p.header, BLANK_LINE)
  {
    var parts := Split(message, BLANK_LINE);
    SplitPartsFree(message, BLANK_LINE);
    var p := MessageParts(parts[0], Join(parts[1..], BLANK_LINE));
    match IndexOf(message, BLANK_LINE)
    case None => p
    case Some(i) =>
      var rest := message[i + |BLANK_LINE|..];
      assert parts[1..] == Split(rest, BLANK_LINE);
      JoinSplit(rest, BLANK_LINE);
      assert message == message[..i] + BLANK_LINE + rest;
      p
  }

  /** `/^(content-type|content-transfer-encoding):/i.test(line)`. */
  predicate IsContentHeader(line: string)
  {
    StartsWithIgnoreCase(line, "content-type:") ||
    StartsWithIgnoreCase(line, "content-transfer-encoding:")
  }

  /** A logical header whose first physical line names a content header. */
  predicate IsContentGroup(group: seq<string>)
  {
    |group| > 0 && IsContentHeader(group[0])
  }

  /** The physical lines of a list of logical headers, in order. */
  function Flatten(groups: seq<seq<string>>): seq<string>
  {
    if |groups| == 0 then [] else Flatten(groups[..|groups| - 1]) + groups[|groups| - 1]
  }

  lemma FlattenSnoc(groups: seq<seq<string>>, g: seq<string>)
    ensures Flatten(groups + [g]) == Flatten(groups) + g
  {
    assert (groups + [g])[..|groups|] == groups;
  }

  lemma {:induction false} FlattenAppend(a: seq<seq<string>>, b: seq<seq<string>>)
    ensures Flatten(a + b) == Flatten(a) + Flatten(b)
    decreases |b|
  {
    if |b| == 0 {
      assert a + b == a;
    } else {
      var init := b[..|b| - 1];
      var last := b[|b| - 1];
      assert b == init + [last];
      assert a + b == (a + init) + [last];
      FlattenAppend(a, init);
      FlattenSnoc(a + init, last);
      FlattenSnoc(init, last);
    }
  }

  /** Grouping of physical header lines into logical headers: the first line
      always opens a header; a later line opens a new one unless it starts
      with whitespace, in which case it continues the previous one. */
  function FoldLines(lines: seq<string>): (groups: seq<seq<string>>)
    ensures |groups| <= |lines|
    ensures |lines| > 0 ==> |groups| > 0
    ensures forall k :: 0 <= k < |groups| ==> |groups[k]| > 0
    decreases |lines|
  {
    if |lines| == 0 then []
    else
      var prev := FoldLines(lines[..|lines| - 1]);
      var line := lines[|lines| - 1];
      if |lines| == 1 || !StartsWithWhitespace(line) then prev + [[line]]
      else prev[..|prev| - 1] + [prev[|prev| - 1] + [line]]
  }

  /** One more line either opens a logical header or extends the last one. */
  lemma FoldLinesSnoc(init: seq<string>, line: string)
    ensures var prev := FoldLines(init);
            FoldLines(init + [line]) ==
              if |init| == 0 || !StartsWithWhitespace(line) then prev + [[line]]
              else prev[..|prev| - 1] + [prev[|prev| - 1] + [line]]
  {
    assert (init + [line])[..|init|] == init;
  }

  /** An independent description of a correct folding: the groups hold
      exactly the lines, in order; every group is non-empty; every group but
      the first opens on a line without leading whitespace; every line after
      the first of its group starts with whitespace. */
  ghost predicate WellFolded(lines: seq<string>, groups: seq<seq<string>>)
  {
    Flatten(groups) == lines && FoldingShape(groups)
  }

  ghost predicate FoldingShape(groups: seq<seq<string>>)
  {
    && (forall k :: 0 <= k < |groups| ==> |groups[k]| > 0)
    && (forall k :: 0 < k < |groups| ==> !StartsWithWhitespace(groups[k][0]))
    && (forall k, j :: 0 <= k < |groups| && 0 < j < |groups[k]| ==> StartsWithWhitespace(groups[k][j]))
  }

  /** A correct folding stays correct when a line opens a new header. */
  lemma WellFoldedOpen(lines: seq<string>, groups: seq<seq<string>>, line: string)
    requires WellFolded(lines, groups)
    requires |groups| == 0 || !StartsWithWhitespace(line)
    ensures WellFolded(lines + [line], groups + [[line]])
  {
    FlattenSnoc(groups, [line]);
    var gs := groups + [[line]];
    assert forall k :: 0 <= k < |groups| ==> gs[k] == groups[k];
  }

  /** A correct folding stays correct when a whitespace line continues the
      last header. */
  lemma WellFoldedContinue(lines: seq<string>, groups: seq<seq<string>>, line: string)
    requires WellFolded(lines, groups)
    requires |groups| > 0 && StartsWithWhitespace(line)
    ensures var m := |groups|;
            WellFolded(lines + [line], groups[..m - 1] + [groups[m - 1] + [line]])
  {
    var m := |groups|;
    var init := groups[..m - 1];
    var g := groups[m - 1];
    assert groups == init + [g];
    FlattenSnoc(init, g);
    FlattenSnoc(init, g + [line]);
    var gs := init + [g + [line]];
    assert forall k :: 0 <= k < m - 1 ==> gs[k] == groups[k];
    assert gs[m - 1][0] == g[0];
    assert forall j :: 0 < j < |g| ==> gs[m - 1][j] == g[j];
  }

  /** FoldLines produces a correct folding. */
  lemma {:induction false} FoldLinesWellFolded(lines: seq<string>)
    ensures WellFolded(lines, FoldLines(lines))
    decreases |lines|
  {
    if |lines| > 0 {
      var init := lines[..|lines| - 1];
      var line := lines[|lines| - 1];
      assert init + [line] == lines;
      FoldLinesWellFolded(init);
      FoldLinesSnoc(init, line);
      if |init| == 0 || !StartsWithWhitespace(line) {
        WellFoldedOpen(init, FoldLines(init), line);
      } else {
        WellFoldedContinue(init, FoldLines(init), line);
      }
    }
  }

  /** Dropping the last group of a correct folding whose last group is a
      single line leaves a correct folding of the other lines. */
  lemma WellFoldedDropGroup(lines: seq<string>, groups: seq<seq<string>>)
    requires WellFolded(lines, groups)
    requires |groups| > 0 && |groups[|groups| - 1]| == 1
    ensures |lines| > 0
    ensures WellFolded(lines[..|lines| - 1], groups[..|groups| - 1])
    ensures lines[|lines| - 1] == groups[|groups| - 1][0]
    ensures |groups| == 1 ==> |lines| == 1
    ensures |groups| > 1 ==> |lines| > 1 && !StartsWithWhitespace(groups[|groups| - 1][0])
  {
    var m := |groups|;
    var init := groups[..m - 1];
    assert groups == init + [groups[m - 1]];
    FlattenSnoc(init, groups[m - 1]);
    assert lines == Flatten(init) + groups[m - 1];
    assert lines[..|lines| - 1] == Flatten(init);
    if m > 1 {
      var init2 := init[..m - 2];
      assert init == init2 + [init[m - 2]];
      FlattenSnoc(init2, init[m - 2]);
    }
  }

  /** Dropping the last line of a correct folding whose last group has
      several lines leaves a correct folding of the other lines. */
  lemma WellFoldedDropLine(lines: seq<string>, groups: seq<seq<string>>)
    requires WellFolded(lines, groups)
    requires |groups| > 0 && |groups[|groups| - 1]| > 1
    ensures |lines| > 1
    ensures var m := |groups|;
            var g := groups[m - 1];
            && WellFolded(lines[..|lines| - 1], groups[..m - 1] + [g[..|g| - 1]])
            && lines[|lines| - 1] == g[|g| - 1]
            && StartsWithWhitespace(g[|g| - 1])
            && groups == groups[..m - 1] + [g[..|g| - 1] + [g[|g| - 1]]]
  {
    var m := |groups|;
    var init := groups[..m - 1];
    var g := groups[m - 1];
    var g' := g[..|g| - 1];
    assert groups == init + [g];
    assert g == g' + [g[|g| - 1]];
    FlattenSnoc(init, g);
    FlattenSnoc(init, g');
    assert lines == Flatten(init) + g' + [g[|g| - 1]];
    assert lines[..|lines| - 1] == Flatten(init) + g';
    var gs := init + [g'];
    assert forall k :: 0 <= k < m - 1 ==> gs[k] == groups[k];
    assert forall j :: 0 <= j < |g'| ==> gs[m - 1][j] == g[j];
  }

  /** A correct folding is unique: it is the one FoldLines computes. */
  lemma {:induction false} WellFoldedUnique(lines: seq<string>, groups: seq<seq<string>>)
    requires WellFolded(lines, groups)
    ensures groups == FoldLines(lines)
    decreases |lines|
  {
    var m := |groups|;
    if m == 0 {
      assert lines == [];
    } else {
      var g := groups[m - 1];
      var init := lines[..|lines| - 1];
      var last := lines[|lines| - 1];
      assert init + [last] == lines;
      if |g| == 1 {
        WellFoldedDropGroup(lines, groups);
        WellFoldedUnique(init, groups[..m - 1]);
        FoldLinesSnoc(init, last);
        assert groups == groups[..m - 1] + [[last]];
      } else {
        WellFoldedDropLine(lines, groups);
        var shorter := groups[..m - 1] + [g[..|g| - 1]];
        WellFoldedUnique(init, shorter);
        FoldLinesSnoc(init, last);
        assert shorter[..m - 1] == groups[..m - 1];
      }
    }
  }

  /** Correct foldings are exactly what FoldLines computes. */
  lemma FoldLinesCharacterised(lines: seq<string>, groups: seq<seq<string>>)
    ensures WellFolded(lines, groups) <==> groups == FoldLines(lines)
  {
    FoldLinesWellFolded(lines);
    if WellFolded(lines, groups) {
      WellFoldedUnique(lines, groups);
    }
  }

  /** Two correct foldings laid end to end form a correct folding when the
      second does not open on a whitespace line. */
  lemma FoldingShapeAppend(a: seq<seq<string>>, b: seq<seq<string>>)
    requires FoldingShape(a) && FoldingShape(b)
    requires |a| > 0 && |b| > 0 ==> !StartsWithWhitespace(b[0][0])
    ensures FoldingShape(a + b)
  {
    var ab := a + b;
    assert forall k :: 0 <= k < |a| ==> ab[k] == a[k];
    assert forall k :: |a| <= k < |ab| ==> ab[k] == b[k - |a|];
  }

  /** A prefix of a correct folding is a correct folding. */
  lemma FoldingShapePrefix(groups: seq<seq<string>>, n: nat)
    requires FoldingShape(groups) && n <= |groups|
    ensures FoldingShape(groups[..n])
  {
    var p := groups[..n];
    assert forall k :: 0 <= k < n ==> p[k] == groups[k];
  }

  /** The logical headers of one kind (content or not), in their original
      order: `bodyHeaders` for `content`, `headers` otherwise. */
  function Select(groups: seq<seq<string>>, content: bool): (r: seq<seq<string>>)
    ensures |r| <= |groups|
  {
    if |groups| == 0 then []
    else
      var last := groups[|groups| - 1];
      Select(groups[..|groups| - 1], content) + (if IsContentGroup(last) == content then [last] else [])
  }

  lemma SelectSnoc(groups: seq<seq<string>>, g: seq<string>, content: bool)
    ensures Select(groups + [g], content) ==
              Select(groups, content) + (if IsContentGroup(g) == content then [g] else [])
  {
    assert (groups + [g])[..|groups|] == groups;
  }

  /** Each selected header comes from the input and is of the kind asked for. */
  lemma {:induction false} SelectMembers(groups: seq<seq<string>>, content: bool)
    ensures forall g :: g in Select(groups, content) ==> g in groups && IsContentGroup(g) == content
    decreases |groups|
  {
    if |groups| > 0 {
      var init := groups[..|groups| - 1];
      var last := groups[|groups| - 1];
      SelectMembers(init, content);
      assert groups == init + [last];
      SelectSnoc(init, last, content);
    }
  }

  /** Selection keeps order: it distributes over concatenation. */
  lemma {:induction false} SelectAppend(a: seq<seq<string>>, b: seq<seq<string>>, content: bool)
    ensures Select(a + b, content) == Select(a, content) + Select(b, content)
    decreases |b|
  {
    if |b| == 0 {
      assert a + b == a;
    } else {
      var init := b[..|b| - 1];
      var last := b[|b| - 1];
      assert b == init + [last];
      assert a + b == (a + init) + [last];
      SelectAppend(a, init, content);
      SelectSnoc(a + init, last, content);
      SelectSnoc(init, last, content);
    }
  }

  /** Every logical header goes to exactly one of the two lists. */
  lemma {:induction false} SelectPartition(groups: seq<seq<string>>)
    ensures multiset(Select(groups, true)) + multiset(Select(groups, false)) == multiset(groups)
    decreases |groups|
  {
    if |groups| > 0 {
      var init := groups[..|groups| - 1];
      var last := groups[|groups| - 1];
      SelectPartition(init);
      assert groups == init + [last];
      SelectSnoc(init, last, true);
      SelectSnoc(init, last, false);
    }
  }

  /** No physical header line is lost or duplicated by the classification. */
  lemma {:induction false} SelectKeepsLines(groups: seq<seq<string>>)
    ensures multiset(Flatten(Select(groups, true))) + multiset(Flatten(Select(groups, false)))
            == multiset(Flatten(groups))
    decreases |groups|
  {
    if |groups| > 0 {
      var init := groups[..|groups| - 1];
      var last := groups[|groups| - 1];
      var c := IsContentGroup(last);
      var chosen, other := Select(init, c), Select(init, !c);
      assert groups == init + [last];
      assert multiset(Flatten(chosen)) + multiset(Flatten(other)) == multiset(Flatten(init)) by {
        SelectKeepsLines(init);
      }
      assert Flatten(groups) == Flatten(init) + last by { FlattenSnoc(init, last); }
      assert Select(groups, c) == chosen + [last] by { SelectSnoc(init, last, c); }
      assert Select(groups, !c) == other by { SelectSnoc(init, last, !c); }
      assert Flatten(chosen + [last]) == Flatten(chosen) + last by { FlattenSnoc(chosen, last); }
    }
  }

  /** The headers routed to one list still form a correct folding: a
      reader folding their lines gets the same logical headers back. */
  lemma {:induction false} SelectKeepsFolding(groups: seq<seq<string>>, content: bool)
    requires FoldingShape(groups)
    ensures FoldingShape(Select(groups, content))
    decreases |groups|
  {
    if |groups| > 0 {
      var m := |groups|;
      var init := groups[..m - 1];
      var last := groups[m - 1];
      assert groups == init + [last];
      FoldingShapePrefix(groups, m - 1);
      SelectKeepsFolding(init, content);
      SelectSnoc(init, last, content);
      if IsContentGroup(last) == content {
        if |Select(init, content)| > 0 {
          assert |init| > 0;
        }
        FoldingShapeAppend(Select(init, content), [last]);
      }
    }
  }

  /** The header block's lines: `header.split('\r\n')`. */
  function HeaderLines(header: string): (lines: seq<string>)
    ensures |lines| > 0
  {
    Split(header, CRLF)
  }

  /** `groups.map(line => line.join('\r\n')).join('\r\n')`. */
  function SerializeHeaders(groups: seq<seq<string>>): string
  {
    Join(seq(|groups|, k requires 0 <= k < |groups| => Join(groups[k], CRLF)), CRLF)
  }

  /** Serializing logical headers writes their physical lines, in order,
      one per CRLF-terminated line. */
  lemma {:induction false} SerializeFlatten(groups: seq<seq<string>>)
    requires forall k :: 0 <= k < |groups| ==> |groups[k]| > 0
    ensures SerializeHeaders(groups) == Join(Flatten(groups), CRLF)
    decreases |groups|
  {
    var m := |groups|;
    if m > 1 {
      var init := groups[..m - 1];
      var last := groups[m - 1];
      assert groups == init + [last];
      SerializeFlatten(init);
      var joined := seq(m, k requires 0 <= k < m => Join(groups[k], CRLF));
      var joinedInit := seq(m - 1, k requires 0 <= k < m - 1 => Join(init[k], CRLF));
      assert joined == joinedInit + [Join(last, CRLF)];
      JoinAppend(joinedInit, [Join(last, CRLF)], CRLF);
      FlattenSnoc(init, last);
      assert |Flatten(init)| > 0 by {
        FlattenSnoc(init[..m - 2], init[m - 2]);
        assert init == init[..m - 2] + [init[m - 2]];
      }
      JoinAppend(Flatten(init), last, CRLF);
    } else if m == 1 {
      assert groups[..0] == [];
      assert Flatten(groups) == groups[0];
      assert seq(m, k requires 0 <= k < m => Join(groups[k], CRLF)) == [Join(groups[0], CRLF)];
    }
  }

  /** Folding the header block's lines into logical headers and serializing
      them again gives back the header block. */
  lemma HeaderRoundTrip(header: string)
    ensures SerializeHeaders(FoldLines(HeaderLines(header))) == header
  {
    var lines := HeaderLines(header);
    FoldLinesWellFolded(lines);
    SerializeFlatten(FoldLines(lines));
    JoinSplit(header, CRLF);
  }

  /** Adding a line to the last logical header of `groups` extends the last
      entry of whichever list that header was routed to. */
  lemma SelectExtendLast(groups: seq<seq<string>>, line: string, content: bool)
    requires |groups| > 0 && |groups[|groups| - 1]| > 0
    ensures var m := |groups|;
            var grown := groups[..m - 1] + [groups[m - 1] + [line]];
            var sel := Select(groups, content);
            (IsContentGroup(groups[m - 1]) == content ==> |sel| > 0 && sel[|sel| - 1] == groups[m - 1]) &&
            Select(grown, content) ==
              if IsContentGroup(groups[m - 1]) == content
              then sel[..|sel| - 1] + [groups[m - 1] + [line]]
              else sel
  {
    var m := |groups|;
    var grown := groups[..m - 1] + [groups[m - 1] + [line]];
    assert grown[..m - 1] == groups[..m - 1];
  }

  /** A line that opens a logical header is appended, as a one-line
      header, to the list its kind selects. */
  lemma ClassifyOpenStep(lines: seq<string>, i: nat, groups: seq<seq<string>>)
    requires i < |lines| && groups == FoldLines(lines[..i])
    requires i == 0 || !StartsWithWhitespace(lines[i])
    ensures FoldLines(lines[..i + 1]) == groups + [[lines[i]]]
    ensures Select(groups + [[lines[i]]], true) ==
              Select(groups, true) + (if IsContentHeader(lines[i]) then [[lines[i]]] else [])
    ensures Select(groups + [[lines[i]]], false) ==
              Select(groups, false) + (if IsContentHeader(lines[i]) then [] else [[lines[i]]])
  {
    assert lines[..i + 1] == lines[..i] + [lines[i]];
    FoldLinesSnoc(lines[..i], lines[i]);
    SelectSnoc(groups, [lines[i]], true);
    SelectSnoc(groups, [lines[i]], false);
  }

  /** A continuation line is appended to the last logical header, which is
      the last entry of the list its kind selected. */
  lemma ClassifyContinueStep(lines: seq<string>, i: nat, groups: seq<seq<string>>)
    requires 0 < i < |lines| && groups == FoldLines(lines[..i])
    requires StartsWithWhitespace(lines[i])
    ensures |groups| > 0
    ensures var m := |groups|;
            var grown := groups[..m - 1] + [groups[m - 1] + [lines[i]]];
            var c := IsContentGroup(groups[m - 1]);
            var sel := Select(groups, c);
            && FoldLines(lines[..i + 1]) == grown
            && |sel| > 0
            && Select(grown, c) == sel[..|sel| - 1] + [sel[|sel| - 1] + [lines[i]]]
            && Select(grown, !c) == Select(groups, !c)
  {
    assert lines[..i + 1] == lines[..i] + [lines[i]];
    FoldLinesSnoc(lines[..i], lines[i]);
    var m := |groups|;
    SelectExtendLast(groups, lines[i], IsContentGroup(groups[m - 1]));
    SelectExtendLast(groups, lines[i], !IsContentGroup(groups[m - 1]));
  }

  /** The state of the source's loop once the first `i` header lines are
      processed: `headers` and `bodyHeaders` hold the logical headers formed
      so far, each routed by kind, and `lastHeader` is `false` (None) before
      the first line, afterwards the last logical header, stored last in
      `bodyHeaders` (Some(true)) or in `headers` (Some(false)). */
  ghost predicate ClassifiedUpTo(lines: seq<string>, i: nat, headers: seq<seq<string>>,
                                 bodyHeaders: seq<seq<string>>, lastHeader: Option<bool>)
  {
    && i <= |lines|
    && var groups := FoldLines(lines[..i]);
    && headers == Select(groups, false)
    && bodyHeaders == Select(groups, true)
    && (lastHeader.None? <==> i == 0)
    && (i > 0 ==> |groups| > 0 && lastHeader.value == IsContentGroup(groups[|groups| - 1]))
  }

  /** The `forEach` callback of the source for the line at index `i`: a line
      that is the first, or that follows no header, or that does not start
      with whitespace opens a new logical header in the list its kind
      selects; any other line is appended to the last logical header. */
  method ClassifyLine(line: string, i: nat, headers: seq<seq<string>>, bodyHeaders: seq<seq<string>>,
                      lastHeader: Option<bool>, ghost lines: seq<string>)
    returns (headers': seq<seq<string>>, bodyHeaders': seq<seq<string>>, lastHeader': Option<bool>)
    requires i < |lines| && lines[i] == line
    requires ClassifiedUpTo(lines, i, headers, bodyHeaders, lastHeader)
    ensures ClassifiedUpTo(lines, i + 1, headers', bodyHeaders', lastHeader')
  {
    ghost var groups := FoldLines(lines[..i]);
    if i == 0 || lastHeader.None? || !StartsWithWhitespace(line) {
      ClassifyOpenStep(lines, i, groups);
      if IsContentHeader(line) {
        headers', bodyHeaders', lastHeader' := headers, bodyHeaders + [[line]], Some(true);
      } else {
        headers', bodyHeaders', lastHeader' := headers + [[line]], bodyHeaders, Some(false);
      }
    } else {
      ClassifyContinueStep(lines, i, groups);
      if lastHeader.value {
        headers', bodyHeaders', lastHeader' :=
          headers, bodyHeaders[..|bodyHeaders| - 1] + [bodyHeaders[|bodyHeaders| - 1] + [line]], lastHeader;
      } else {
        headers', bodyHeaders', lastHeader' :=
          headers[..|headers| - 1] + [headers[|headers| - 1] + [line]], bodyHeaders, lastHeader;
      }
    }
  }

  /** The loop of the source over `header.split('\r\n')`. Returns the
      envelope headers and the content headers, each a list of logical
      headers (lists of physical lines), in their original order. */
  method ClassifyHeaders(header: string) returns (headers: seq<seq<string>>, bodyHeaders: seq<seq<string>>)
    ensures headers == Select(FoldLines(HeaderLines(header)), false)
    ensures bodyHeaders == Select(FoldLines(HeaderLines(header)), true)
  {
    var lines := HeaderLines(header);
    headers, bodyHeaders := [], [];
    var lastHeader: Option<bool> := None;
    var i := 0;
    while i < |lines|
      invariant ClassifiedUpTo(lines, i, headers, bodyHeaders, lastHeader)
    {
      headers, bodyHeaders, lastHeader := ClassifyLine(lines[i], i, headers, bodyHeaders, lastHeader, lines);
      i := i + 1;
    }
    assert lines[..i] == lines;
  }
}
