/** No-op detection for edits (editing/patch_effectiveness.py). */
module Effectiveness {
  import opened Prelude
  import opened Text

  datatype Tag = Equal | Replace | Delete | Insert

  /** One opcode of the foreign line differ. */
  datatype Opcode = Opcode(tag: Tag, i1: int, i2: int, j1: int, j2: int)

  datatype Reason = EmptyPatch | NoEffectChange | UnchangedTargetRegion | NoMeaningfulDiff

  function ChangedLines(ops: seq<Opcode>): int {
    if ops == [] then 0
    else var o := ops[|ops| - 1];
         ChangedLines(ops[..|ops| - 1]) + if o.tag == Equal then 0 else Max(o.i2 - o.i1, o.j2 - o.j1)
  }

  function MeaningfulLines(before: string, after: string, ops: seq<Opcode>): int {
    if before == after then 0 else Max(1, ChangedLines(ops))
  }

  /** The count is positive exactly for a real change, whatever the differ reports. */
  method MeaningfulDiffLineCount(before: string, after: string, ops: seq<Opcode>) returns (n: int)
    ensures n == MeaningfulLines(before, after, ops)
    ensures n >= 1 <==> before != after
  {
    if before == after {
      return 0;
    }
    n := 0;
    for k := 0 to |ops|
      invariant n == ChangedLines(ops[..k])
    {
      assert ops[..k + 1][..k] == ops[..k];
      if ops[k].tag == Equal {
        continue;
      }
      n := n + Max(ops[k].i2 - ops[k].i1, ops[k].j2 - ops[k].j1);
    }
    assert ops[..|ops|] == ops;
    n := Max(1, n);
  }

  /** Opcode by opcode the count grows by the longer of the two sides, and not at all for equal ones. */
  lemma CountPerOpcode(ops: seq<Opcode>, o: Opcode)
    ensures var grown := ChangedLines(ops + [o]) - ChangedLines(ops);
            if o.tag == Equal then grown == 0
            else grown >= o.i2 - o.i1 && grown >= o.j2 - o.j1 && (grown == o.i2 - o.i1 || grown == o.j2 - o.j1)
    ensures ChangedLines([]) == 0
  {
    assert (ops + [o])[..|ops|] == ops;
  }

  datatype Assessment = Rejected(reason: Reason) | Passed(newSource: Option<string>)

  function AssessTextSub(source: string, old_: string, new_: string,
                         opcodes: (string, string) -> seq<Opcode>): Assessment {
    if Blank(old_) then Rejected(EmptyPatch)
    else if old_ == new_ then Rejected(NoEffectChange)
    else if !Contains(source, old_) then Passed(None)
    else
      var newSource := ReplaceFirst(source, old_, new_);
      if newSource == source then Rejected(UnchangedTargetRegion)
      else
        if MeaningfulLines(source, newSource, opcodes(source, newSource)) < 1 then Rejected(NoMeaningfulDiff)
        else Passed(Some(newSource))
  }

  /** The assessment rejects exactly blank or self-replacing patches: its two later reject
      branches are unreachable, and a new source is always a different one. */
  lemma TextSubRejectsExactly(source: string, old_: string, new_: string, opcodes: (string, string) -> seq<Opcode>)
    ensures AssessTextSub(source, old_, new_, opcodes)
            == if Blank(old_) then Rejected(EmptyPatch)
               else if old_ == new_ then Rejected(NoEffectChange)
               else if Contains(source, old_) then Passed(Some(ReplaceFirst(source, old_, new_)))
               else Passed(None)
    ensures Contains(source, old_) && old_ != new_ ==> ReplaceFirst(source, old_, new_) != source
  {
    if Contains(source, old_) && old_ != new_ { ReplaceChanges(source, old_, new_); }
  }

  /** Assessment of a structured edit; `appendCode` is the code of a module append. */
  function AssessAfterChange(before: string, after: string, appendCode: Option<string>,
                             appendMeaningful: (string, string) -> bool,
                             opcodes: (string, string) -> seq<Opcode>): Option<Reason> {
    if after == before then Some(UnchangedTargetRegion)
    else if appendCode.Some? && !appendMeaningful(appendCode.value, before) then Some(NoMeaningfulDiff)
    else if MeaningfulLines(before, after, opcodes(before, after)) < 1 then Some(NoMeaningfulDiff)
    else None
  }

  lemma StructuredRejectsExactly(before: string, after: string, appendCode: Option<string>,
                                 appendMeaningful: (string, string) -> bool, opcodes: (string, string) -> seq<Opcode>)
    ensures AssessAfterChange(before, after, appendCode, appendMeaningful, opcodes).None?
            <==> before != after && (appendCode.Some? ==> appendMeaningful(appendCode.value, before))
  {}
}
