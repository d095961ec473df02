/** Loading a script file: `VirtualMachine.execute` (src/vm.py and the older
    vm.py read scripts the same way) strips every line, drops the blank lines
    and the `#` comments, and keeps the rest in file order. The file's lines
    are an input here; opening and reading the file is not modelled. */
module ScriptText {
  import opened Strings

  /** A stripped line the loader keeps: not empty and not a comment. */
  predicate IsInstructionLine(stripped: string)
  {
    stripped != [] && stripped[0] != '#'
  }

  /** What one line adds to the loaded instructions. */
  function Kept(line: string): seq<string>
  {
    var stripped := Strip(line);
    if IsInstructionLine(stripped) then [stripped] else []
  }

  /** The instructions the loader keeps from `lines`, in order. */
  function KeptLines(lines: seq<string>): seq<string>
  {
    if lines == [] then [] else KeptLines(lines[..|lines| - 1]) + Kept(lines[|lines| - 1])
  }

  /** The loader loop: one stripped line appended per kept input line. */
  method LoadInstructions(lines: seq<string>) returns (instructions: seq<string>)
    ensures instructions == KeptLines(lines)
  {
    instructions := [];
    for i := 0 to |lines|
      invariant instructions == KeptLines(lines[..i])
    {
      KeptLinesPrefix(lines, i);
      var stripped := Strip(lines[i]);
      if !((stripped != [] && stripped[0] == '#') || stripped == []) {
        instructions := instructions + [stripped];
      }
    }
    assert lines[..|lines|] == lines;
  }

  lemma KeptLinesPrefix(lines: seq<string>, i: nat)
    requires i < |lines|
    ensures KeptLines(lines[..i + 1]) == KeptLines(lines[..i]) + Kept(lines[i])
  {
    assert lines[..i + 1] == lines[..i] + [lines[i]];
    KeptLinesSnoc(lines[..i], lines[i]);
  }

  lemma KeptLinesSnoc(lines: seq<string>, line: string)
    ensures KeptLines(lines + [line]) == KeptLines(lines) + Kept(line)
  {
    assert (lines + [line])[..|lines|] == lines;
  }

  /** Loading the concatenation of two files' lines loads each in turn. */
  lemma {:induction false} KeptLinesAppend(a: seq<string>, b: seq<string>)
    ensures KeptLines(a + b) == KeptLines(a) + KeptLines(b)
    decreases |b|
  {
    if b == [] {
      assert a + b == a;
    } else {
      var b', line := b[..|b| - 1], b[|b| - 1];
      assert b == b' + [line];
      assert a + b == (a + b') + [line];
      KeptLinesSnoc(a + b', line);
      KeptLinesSnoc(b', line);
      KeptLinesAppend(a, b');
    }
  }

  /** A single line is kept, stripped, exactly when it is neither blank nor a
      comment once stripped. */
  lemma KeptLinesSingle(line: string)
    ensures KeptLines([line]) == if IsInstructionLine(Strip(line)) then [Strip(line)] else []
  {
    assert [line][..0] == [];
  }

  /** Every kept line is non-empty, not a comment, and already stripped, and
      there are never more instructions than lines. */
  lemma {:induction false} KeptLinesWellFormed(lines: seq<string>)
    ensures |KeptLines(lines)| <= |lines|
    ensures forall i :: 0 <= i < |KeptLines(lines)| ==>
      IsInstructionLine(KeptLines(lines)[i]) && Strip(KeptLines(lines)[i]) == KeptLines(lines)[i]
  {
    if lines != [] {
      var init := lines[..|lines| - 1];
      KeptLinesWellFormed(init);
      StripIdempotent(lines[|lines| - 1]);
    }
  }

  /** Loading an already loaded script changes nothing. */
  lemma {:induction false} KeptLinesIdempotent(lines: seq<string>)
    ensures KeptLines(KeptLines(lines)) == KeptLines(lines)
  {
    if lines != [] {
      var init := lines[..|lines| - 1];
      var last := Strip(lines[|lines| - 1]);
      KeptLinesIdempotent(init);
      KeptLinesAppend(KeptLines(init), Kept(lines[|lines| - 1]));
      if IsInstructionLine(last) {
        StripIdempotent(lines[|lines| - 1]);
        KeptLinesSingle(last);
      }
    }
  }
}
