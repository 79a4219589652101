/** Git header folding: a header value's later lines are stored with one leading space. Splitting a block
    into logical lines and unfolding them again are inverse to each other. A character stands for one byte. */
module HeaderFolding {
  import opened Wrappers
  import opened Seqs

  predicate Continuation(l: string) {
    l != "" && l[0] == ' '
  }

  /** A continuation line is joined onto the logical line before it, if there is one. */
  function FoldStep(front: seq<string>, l: string): seq<string> {
    if Continuation(l) && front != [] then
      front[..|front| - 1] + [front[|front| - 1] + ['\n'] + l[1..]]
    else
      front + [l]
  }

  function Fold(raw: seq<string>): (lines: seq<string>)
    ensures raw != [] ==> lines != []
  {
    if raw == [] then [] else FoldStep(Fold(raw[..|raw| - 1]), raw[|raw| - 1])
  }

  lemma FoldSnoc(raw: seq<string>, l: string)
    ensures Fold(raw + [l]) == FoldStep(Fold(raw), l)
  {
    assert (raw + [l])[..|raw|] == raw;
  }

  /** Only the first logical line can begin with a space. */
  lemma {:induction false} FoldedLinesStartClean(raw: seq<string>)
    ensures forall i | 1 <= i < |Fold(raw)| :: !Continuation(Fold(raw)[i])
  {
    if raw != [] {
      var front, l := Fold(raw[..|raw| - 1]), raw[|raw| - 1];
      FoldedLinesStartClean(raw[..|raw| - 1]);
      if Continuation(l) && |front| > 1 {
        assert !Continuation(front[|front| - 1]);
      }
    }
  }

  method SplitHeaderLines(block: string) returns (lines: seq<string>)
    ensures lines == Fold(SplitOn(block, '\n'))
    ensures lines != []
  {
    var raw := SplitOn(block, '\n');
    lines := [];
    for i := 0 to |raw|
      invariant lines == Fold(raw[..i])
    {
      var l := raw[i];
      FoldSnoc(raw[..i], l);
      assert raw[..i + 1] == raw[..i] + [l];
      if l != "" && l[0] == ' ' && |lines| > 0 {
        lines := lines[..|lines| - 1] + [lines[|lines| - 1] + ['\n'] + l[1..]];
      } else {
        lines := lines + [l];
      }
    }
    assert raw[..|raw|] == raw;
  }

  // ---------- Unfolding ----------

  function Indent(parts: seq<string>): (r: seq<string>)
    ensures |r| == |parts|
  {
    seq(|parts|, i requires 0 <= i < |parts| => if i == 0 then parts[0] else [' '] + parts[i])
  }

  /** The physical lines one logical line is stored as. */
  function Physical(line: string): seq<string> {
    Indent(SplitOn(line, '\n'))
  }

  function PhysicalLines(lines: seq<string>): seq<string> {
    if lines == [] then []
    else PhysicalLines(lines[..|lines| - 1]) + Physical(lines[|lines| - 1])
  }

  function Unfold(lines: seq<string>): string {
    Join(PhysicalLines(lines), '\n')
  }

  lemma FirstPartStarts(line: string)
    ensures Continuation(SplitOn(line, '\n')[0]) <==> Continuation(line)
  {
    PhysicalFirst(line);
  }

  lemma PhysicalFirst(line: string)
    ensures |Physical(line)| > 0
    ensures Physical(line)[0] <= line
    ensures '\n' !in line ==> Physical(line) == [line]
    ensures forall p <- Physical(line) :: '\n' !in p
    ensures forall i | 1 <= i < |Physical(line)| :: Continuation(Physical(line)[i])
    ensures Continuation(Physical(line)[0]) <==> Continuation(line)
    ensures Physical(line)[0] == "" <==> line == "" || line[0] == '\n'
  {
    var parts := SplitOn(line, '\n');
    if '\n' !in line {
      SplitNone(line, '\n');
    }
    assert Join(parts, '\n') == line;
    forall i | 0 <= i < |parts|
      ensures '\n' !in Indent(parts)[i]
    {
      assert parts[i] in parts;
    }
  }

  lemma {:induction false} PhysicalLinesAppend(a: seq<string>, b: seq<string>)
    ensures PhysicalLines(a + b) == PhysicalLines(a) + PhysicalLines(b)
  {
    if b == [] {
      assert a + b == a;
    } else {
      assert (a + b)[..|a + b| - 1] == a + b[..|b| - 1];
      PhysicalLinesAppend(a, b[..|b| - 1]);
    }
  }

  lemma {:induction false} PhysicalLinesClean(lines: seq<string>)
    ensures forall p <- PhysicalLines(lines) :: '\n' !in p
    ensures |PhysicalLines(lines)| >= |lines|
  {
    if lines != [] {
      PhysicalLinesClean(lines[..|lines| - 1]);
      PhysicalFirst(lines[|lines| - 1]);
    }
  }

  /** Folding loses nothing: unfolding the logical lines gives back every byte of the block. */
  lemma FoldingIsLossless(block: string)
    ensures Unfold(Fold(SplitOn(block, '\n'))) == block
  {
    PhysicalOfFold(SplitOn(block, '\n'));
  }

  lemma {:induction false} PhysicalOfFold(raw: seq<string>)
    requires forall i | 0 <= i < |raw| :: '\n' !in raw[i]
    ensures PhysicalLines(Fold(raw)) == raw
  {
    if raw != [] {
      PhysicalOfFold(raw[..|raw| - 1]);
      PhysicalOfFoldSnoc(raw[..|raw| - 1], raw[|raw| - 1], raw);
    }
  }

  lemma PhysicalOfFoldSnoc(rest: seq<string>, l: string, raw: seq<string>)
    requires PhysicalLines(Fold(rest)) == rest && '\n' !in l && raw == rest + [l]
    ensures PhysicalLines(Fold(raw)) == raw
  {
    FoldSnoc(rest, l);
    PhysicalOfFoldStep(Fold(rest), l);
  }

  lemma PhysicalOfFoldStep(front: seq<string>, l: string)
    requires '\n' !in l
    ensures PhysicalLines(FoldStep(front, l)) == PhysicalLines(front) + [l]
  {
    if Continuation(l) && front != [] {
      var head, last := front[..|front| - 1], front[|front| - 1];
      PhysicalSnoc(head, last);
      PhysicalSnoc(head, last + ['\n'] + l[1..]);
      PhysicalGrows(last, l[1..]);
      assert head + [last] == front;
      assert [' '] + l[1..] == l;
    } else {
      PhysicalSnoc(front, l);
      PhysicalFirst(l);
    }
  }

  lemma PhysicalSnoc(lines: seq<string>, line: string)
    ensures PhysicalLines(lines + [line]) == PhysicalLines(lines) + Physical(line)
  {
    assert (lines + [line])[..|lines|] == lines;
  }

  lemma PhysicalGrows(line: string, more: string)
    requires '\n' !in more
    ensures Physical(line + ['\n'] + more) == Physical(line) + [[' '] + more]
  {
    SplitAppend(line, more, '\n');
    SplitNone(more, '\n');
  }

  /** Splitting an unfolded list gives back the list, provided only its first line may start with a space. */
  lemma UnfoldingIsInvertible(lines: seq<string>)
    requires lines != []
    requires forall i | 1 <= i < |lines| :: !Continuation(lines[i])
    ensures SplitOn(Unfold(lines), '\n') == PhysicalLines(lines)
    ensures Fold(SplitOn(Unfold(lines), '\n')) == lines
  {
    PhysicalLinesClean(lines);
    SplitJoin(PhysicalLines(lines), '\n');
    FoldOfPhysical(lines);
  }

  lemma {:induction false} FoldOfPhysical(lines: seq<string>)
    requires forall i | 1 <= i < |lines| :: !Continuation(lines[i])
    ensures Fold(PhysicalLines(lines)) == lines
  {
    if lines != [] {
      var rest, line := lines[..|lines| - 1], lines[|lines| - 1];
      assert lines == rest + [line];
      assert rest != [] ==> !Continuation(line);
      FoldOfPhysical(rest);
      FoldOfPhysicalSnoc(rest, line, lines);
    }
  }

  lemma FoldOfPhysicalSnoc(rest: seq<string>, line: string, lines: seq<string>)
    requires Fold(PhysicalLines(rest)) == rest && lines == rest + [line]
    requires rest != [] ==> !Continuation(line)
    ensures Fold(PhysicalLines(lines)) == lines
  {
    FirstPartStarts(line);
    PhysicalSnoc(rest, line);
    FoldOneLine(PhysicalLines(rest), rest, SplitOn(line, '\n'));
  }

  /** Folding the stored form of one more logical line appends exactly that line. */
  lemma {:induction false} FoldOneLine(before: seq<string>, front: seq<string>, parts: seq<string>)
    requires Fold(before) == front && |parts| > 0
    requires front != [] ==> !Continuation(parts[0])
    ensures Fold(before + Indent(parts)) == front + [Join(parts, '\n')]
  {
    if |parts| == 1 {
      FoldSnoc(before, parts[0]);
      assert before + Indent(parts) == before + [parts[0]];
    } else {
      var init, last := parts[..|parts| - 1], parts[|parts| - 1];
      FoldOneLine(before, front, init);
      IndentSnoc(before, parts);
      assert init + [last] == parts;
      FoldOneMore(before + Indent(init), front, init, last);
    }
  }

  lemma FoldOneMore(stored: seq<string>, front: seq<string>, init: seq<string>, last: string)
    requires init != [] && Fold(stored) == front + [Join(init, '\n')]
    ensures Fold(stored + [[' '] + last]) == front + [Join(init + [last], '\n')]
  {
    FoldSnoc(stored, [' '] + last);
    FoldContinuation(front, Join(init, '\n'), last);
    JoinAppend(init, [last], '\n');
  }

  lemma IndentSnoc(before: seq<string>, parts: seq<string>)
    requires |parts| > 1
    ensures var n := |parts| - 1;
            before + Indent(parts) == before + Indent(parts[..n]) + [[' '] + parts[n]]
  {
  }

  lemma FoldContinuation(front: seq<string>, line: string, more: string)
    ensures FoldStep(front + [line], [' '] + more) == front + [line + ['\n'] + more]
  {
    assert ([' '] + more)[1..] == more;
  }

  // ---------- The blank line that ends the headers ----------

  predicate BlankAt(s: string, i: int) {
    0 <= i < |s| - 1 && s[i] == '\n' && s[i + 1] == '\n'
  }

  /** `bytes.Cut(payload, "\n\n")`: the header block and the message around the FIRST blank line. */
  function CutBlank(payload: string): (r: Option<(string, string)>)
    ensures r.None? <==> forall i :: !BlankAt(payload, i)
    ensures r.Some? ==>
      && payload == r.value.0 + "\n\n" + r.value.1
      && forall i | 0 <= i < |r.value.0| :: !BlankAt(payload, i)
  {
    if |payload| < 2 then None
    else if payload[0] == '\n' && payload[1] == '\n' then
      assert BlankAt(payload, 0);
      assert payload == "" + "\n\n" + payload[2..];
      Some(("", payload[2..]))
    else
      var rest := CutBlank(payload[1..]);
      assert forall i :: BlankAt(payload, i) ==> BlankAt(payload[1..], i - 1);
      assert forall i :: BlankAt(payload[1..], i) ==> BlankAt(payload, i + 1);
      if rest.None? then None else Some(([payload[0]] + rest.value.0, rest.value.1))
  }

  /** Where the cut falls is forced: a block without blank lines that does not end in a newline is
      exactly what comes before the first one. */
  lemma CutIsUnique(block: string, message: string)
    requires forall i :: !BlankAt(block, i)
    requires block == "" || block[|block| - 1] != '\n'
    ensures CutBlank(block + "\n\n" + message) == Some((block, message))
  {
    var payload := block + "\n\n" + message;
    assert BlankAt(payload, |block|);
    var cut := CutBlank(payload);
    assert cut.Some?;
    var n := |cut.value.0|;
    assert BlankAt(payload, n);
    if n < |block| {
      assert n + 1 < |block| ==> BlankAt(block, n);
      assert false;
    }
    assert n == |block|;
    assert cut.value.0 == payload[..n] == block;
    assert cut.value.1 == payload[n + 2..] == message;
  }

  /** The block before the first blank line has no empty physical line after its first. */
  lemma {:induction false} NoEmptyLines(block: string)
    requires forall i :: !BlankAt(block, i)
    requires block == "" || block[|block| - 1] != '\n'
    ensures forall k | 1 <= k < |SplitOn(block, '\n')| :: SplitOn(block, '\n')[k] != ""
  {
    if block != "" {
      var rest := block[1..];
      assert forall i :: BlankAt(rest, i) ==> BlankAt(block, i + 1);
      NoEmptyLines(rest);
      if block[0] == '\n' {
        assert !BlankAt(block, 0);
        assert SplitOn(rest, '\n')[0] != "";
      }
    }
  }

  lemma {:induction false} JoinHasNoBlank(parts: seq<string>)
    requires |parts| > 0
    requires forall p <- parts :: '\n' !in p && p != ""
    ensures forall i :: !BlankAt(Join(parts, '\n'), i)
    ensures parts[0] != ""
    ensures Join(parts, '\n') != "" && Join(parts, '\n')[|Join(parts, '\n')| - 1] != '\n'
    ensures Join(parts, '\n')[0] == parts[0][0]
  {
    if |parts| == 1 {
      assert parts[0] in parts;
    } else {
      assert parts[0] in parts && parts[1] in parts;
      forall p | p in parts[1..] ensures p in parts {
      }
      var rest := Join(parts[1..], '\n');
      JoinHasNoBlank(parts[1..]);
      var whole, n := parts[0] + ['\n'] + rest, |parts[0]|;
      forall i
        ensures !BlankAt(whole, i)
      {
        assert BlankAt(whole, i) && i > n ==> BlankAt(rest, i - n - 1);
      }
    }
  }
}
