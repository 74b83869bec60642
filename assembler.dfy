/** The assembler for the match VM. The first pass (`parse_lines`) cuts
    comments, binds labels to offsets and lays each instruction out at the
    sum of the widths before it; the second (`assemble`) emits each opcode
    and, for the eight immediate ops, the operand modulo 2^32 as four
    little-endian bytes. Operands are numbers, labels, or two of those joined
    by one '+' or '-'. */
module Assembler {
  import opened Wrappers
  import opened Isa
  import opened Text

  /** `OPMAP`: the mnemonics and their opcodes. */
  const OPMAP: map<string, byte> :=
    map["NOP" := 0, "MOV" := 1, "ADD" := 2, "LOAD" := 3, "STORE" := 4, "JMP" := 5,
        "JZ" := 6, "HALT" := 7, "MOVP" := 8, "ADDP" := 9, "LOADI" := 10, "STOREI" := 11]

  /** `IMM_OPS`: the mnemonics that take an imm32. */
  const IMM_OPS: set<string> := {"MOV", "ADD", "LOAD", "STORE", "JMP", "JZ", "MOVP", "ADDP"}

  /** `OPMAP.get(op)`: the opcode of a mnemonic, spelled out one entry at a
      time; `OpcodeIsOpmap` proves it is the lookup in `OPMAP`. */
  function Opcode(op: string): (r: Option<byte>)
    ensures r.Some? ==> IsOpcode(r.value)
  {
    if op == "NOP" then Some(NOP)
    else if op == "MOV" then Some(MOV)
    else if op == "ADD" then Some(ADD)
    else if op == "LOAD" then Some(LOAD)
    else if op == "STORE" then Some(STORE)
    else if op == "JMP" then Some(JMP)
    else if op == "JZ" then Some(JZ)
    else if op == "HALT" then Some(HALT)
    else if op == "MOVP" then Some(MOVP)
    else if op == "ADDP" then Some(ADDP)
    else if op == "LOADI" then Some(LOADI)
    else if op == "STOREI" then Some(STOREI)
    else None
  }

  /** `op in IMM_OPS` */
  predicate TakesImm(op: string) {
    Opcode(op).Some? && IsImmOp(Opcode(op).value)
  }

  /** The offset an instruction adds in `parse_lines`. */
  function AsmWidth(op: string): nat {
    if TakesImm(op) then 5 else 1
  }

  /** `OPMAP` numbers the twelve mnemonics as the VM's opcodes. */
  lemma OpmapMatchesVm()
    ensures OPMAP["NOP"] == NOP && OPMAP["MOV"] == MOV && OPMAP["ADD"] == ADD
            && OPMAP["LOAD"] == LOAD && OPMAP["STORE"] == STORE && OPMAP["JMP"] == JMP
            && OPMAP["JZ"] == JZ && OPMAP["HALT"] == HALT && OPMAP["MOVP"] == MOVP
            && OPMAP["ADDP"] == ADDP && OPMAP["LOADI"] == LOADI && OPMAP["STOREI"] == STOREI
  {
  }

  /** Every opcode of the VM has exactly one mnemonic in `OPMAP`. */
  lemma OpmapOneToOne()
    ensures forall op: byte :: IsOpcode(op) ==> op in OPMAP.Values
    ensures forall m1, m2 :: m1 in OPMAP && m2 in OPMAP && OPMAP[m1] == OPMAP[m2] ==> m1 == m2
  {
    OpmapMatchesVm();
    assert forall op: byte :: IsOpcode(op) ==>
      op == OPMAP["NOP"] || op == OPMAP["MOV"] || op == OPMAP["ADD"] || op == OPMAP["LOAD"]
      || op == OPMAP["STORE"] || op == OPMAP["JMP"] || op == OPMAP["JZ"] || op == OPMAP["HALT"]
      || op == OPMAP["MOVP"] || op == OPMAP["ADDP"] || op == OPMAP["LOADI"] || op == OPMAP["STOREI"];
  }

  /** `Opcode` is the lookup in `OPMAP`. */
  lemma OpcodeIsOpmap(m: string)
    ensures Opcode(m).Some? <==> m in OPMAP
    ensures m in OPMAP ==> Opcode(m).value == OPMAP[m]
  {
  }

  /** `IMM_OPS` is exactly the mnemonics of the opcodes that carry an
      immediate, so the offsets `parse_lines` advances by are the widths by
      which the VM's `pc` advances; `TakesImm` is membership in it. */
  lemma ImmOpsMatchVm(m: string)
    ensures m in IMM_OPS ==> m in OPMAP
    ensures m in OPMAP ==> (m in IMM_OPS <==> IsImmOp(OPMAP[m]))
    ensures TakesImm(m) <==> m in IMM_OPS
  {
    OpcodeIsOpmap(m);
  }

  /** What the assembler raises: the first three are `SyntaxError`s of
      `parse_lines`, `BlankOperand` is the `IndexError` of indexing a blank
      token, the rest are `ValueError`s. */
  datatype AsmError =
    | DuplicateLabel(name: string)
    | BadLine(raw: string)
    | UnknownOpcode(op: string, raw: string)
    | EmptyNumber
    | NotANumber(text: string)
    | NoOperand
    | BlankOperand
    | EmptyPart(tok: string)
    | UnknownSymbol(part: string, tok: string)
    | UnknownImmediate(tok: string)
    | MissingImmediate(op: string, offset: nat)

  predicate IsSyntaxError(e: AsmError) {
    e.DuplicateLabel? || e.BadLine? || e.UnknownOpcode?
  }

  // ---------------------------------------------------------------------------
  // First pass: lines, labels, offsets

  /** No comment character is left. */
  predicate NoMarks(s: string) {
    forall i :: 0 <= i < |s| ==> s[i] != '#' && s[i] != ';'
  }

  /** No white space at either end, as `strip` leaves a string. */
  predicate Stripped(s: string) {
    s == [] || (!IsSpace(s[0]) && !IsSpace(s[|s| - 1]))
  }

  /** A line as `parse_lines` works on it: stripped and without comments. */
  predicate Clean(line: string) {
    NoMarks(line) && Stripped(line)
  }

  /** Stripping a comment-free string gives a clean line. */
  lemma StripMarks(s: string)
    requires NoMarks(s)
    ensures Clean(Strip(s))
  {
    StripEnds(s);
    var l := LeadingSpaces(s);
    forall i | 0 <= i < |Strip(s)|
      ensures Strip(s)[i] == s[l + i]
    {
    }
  }

  lemma IsAtChar(s: string, c: char, k: nat)
    ensures IsAt(s, [c], k) <==> k < |s| && s[k] == c
  {
    if k < |s| {
      assert IsAt(s, [c], k) ==> s[k..k + 1][0] == s[k];
    }
  }

  /** `s.split(c, 1)[0]` is the prefix of `s` before its first `c`. */
  lemma BeforeChar(s: string, c: char)
    ensures |Before(s, [c])| <= |s| && Before(s, [c]) == s[..|Before(s, [c])|]
    ensures forall i :: 0 <= i < |Before(s, [c])| ==> s[i] != c
    ensures |Before(s, [c])| == |s| || s[|Before(s, [c])|] == c
  {
    forall i | 0 <= i < |Before(s, [c])|
      ensures s[i] != c
    {
      IsAtChar(s, c, i);
    }
    if Find(s, [c]).Some? {
      IsAtChar(s, c, Find(s, [c]).value);
    }
  }

  /** `raw.split("#", 1)[0].split(";", 1)[0].strip()` */
  function CleanLine(raw: string): (line: string)
    ensures Clean(line)
  {
    var noHash := Before(raw, "#");
    var cut := Before(noHash, ";");
    BeforeChar(raw, '#');
    BeforeChar(noHash, ';');
    assert NoMarks(cut) by {
      forall i | 0 <= i < |cut|
        ensures cut[i] != '#' && cut[i] != ';'
      {
        assert cut[i] == noHash[i];
      }
    }
    StripMarks(cut);
    Strip(cut)
  }

  /** Cutting at the first '#' and then at the first ';' is cutting at the
      first of either: a line keeps exactly the text before its first comment
      mark, stripped. */
  lemma CleanLineCuts(raw: string, j: nat)
    requires j <= |raw| && (j == |raw| || raw[j] == '#' || raw[j] == ';')
    requires NoMarks(raw[..j])
    ensures CleanLine(raw) == Strip(raw[..j])
  {
    var noHash := Before(raw, "#");
    var cut := Before(noHash, ";");
    BeforeChar(raw, '#');
    BeforeChar(noHash, ';');
    var h := |noHash|;
    assert j <= h;
    assert j < |raw| && raw[j] == '#' ==> h == j;
    assert noHash[..j] == raw[..j];
    var h2 := |cut|;
    assert j <= h2;
    assert h2 == j by {
      if j < h {
        assert noHash[j] == raw[j] == ';';
      }
    }
    assert cut == raw[..j];
  }

  /** The length of the run of `\w` characters at the start of `s`. */
  function WordPrefix(s: string): (k: nat)
    ensures k <= |s| && (forall i :: 0 <= i < k ==> IsWordChar(s[i]))
    ensures k == |s| || !IsWordChar(s[k])
  {
    if s == [] || !IsWordChar(s[0]) then 0 else 1 + WordPrefix(s[1..])
  }

  /** The length of the run of ASCII letters at the start of `s`. */
  function LetterPrefix(s: string): (k: nat)
    ensures k <= |s| && (forall i :: 0 <= i < k ==> IsAsciiLetter(s[i]))
    ensures k == |s| || !IsAsciiLetter(s[k])
  {
    if s == [] || !IsAsciiLetter(s[0]) then 0 else 1 + LetterPrefix(s[1..])
  }

  /** What `_label_re` takes for a label name: a letter or underscore, then
      word characters. */
  predicate LabelName(s: string) {
    |s| > 0 && (IsAsciiLetter(s[0]) || s[0] == '_') && forall i :: 0 <= i < |s| ==> IsWordChar(s[i])
  }

  /** `_label_re.match(line)` on a clean line: the position of the ':' that
      ends a leading label. */
  function LabelColon(line: string): (r: Option<nat>)
    ensures r.Some? ==> r.value < |line| && line[r.value] == ':' && LabelName(line[..r.value])
  {
    var k := WordPrefix(line);
    if line != [] && (IsAsciiLetter(line[0]) || line[0] == '_') && k < |line| && line[k] == ':'
    then Some(k) else None
  }

  /** What follows a label on a clean line, stripped, is a clean line. */
  lemma AfterLabel(line: string)
    requires Clean(line) && LabelColon(line).Some?
    ensures Clean(Strip(line[LabelColon(line).value + 1..]))
  {
    var rest := line[LabelColon(line).value + 1..];
    assert NoMarks(rest) by {
      forall i | 0 <= i < |rest|
        ensures rest[i] != '#' && rest[i] != ';'
      {
        assert rest[i] == line[LabelColon(line).value + 1 + i];
      }
    }
    StripMarks(rest);
  }

  /** `_inst_re.match(line)` on a clean line: the mnemonic's letters and the
      stripped operand text (empty when there is none), or `None` when the
      line does not match. The operand runs to the end of the line, so it
      may not hold a line feed. */
  function MatchInst(line: string): (r: Option<(string, string)>)
    requires Clean(line)
    ensures r.Some? ==> |r.value.0| > 0 && forall i :: 0 <= i < |r.value.0| ==> IsAsciiLetter(r.value.0[i])
  {
    var n := LetterPrefix(line);
    if n == 0 then None
    else if n == |line| then Some((line, ""))
    else if !IsSpace(line[n]) then None
    else
      var arg := LStrip(line[n..]);
      if '\n' in arg then None else Some((line[..n], arg))
  }

  /** What one source line says, whatever came before it: the label it
      defines, if any, and what follows the label. */
  datatype Stmt = Stmt(name: Option<string>, body: Body)

  datatype Body =
    | NoInst                          // nothing after the label, or a blank or comment line
    | Inst(op: string, arg: string)   // a known mnemonic, upper-cased, and its operand text
    | Bad(error: AsmError)            // refused by the instruction pattern, or an unknown mnemonic

  /** `_label_re` on a clean line: the label the line starts with, if any,
      and what follows the label's colon, stripped. */
  function SplitLabel(line: string): (r: (Option<string>, string))
    requires Clean(line)
    ensures Clean(r.1)
    ensures r.0.Some? ==> LabelName(r.0.value)
  {
    match LabelColon(line)
    case None => (None, line)
    case Some(k) =>
      AfterLabel(line);
      (Some(line[..k]), Strip(line[k + 1..]))
  }

  /** `_inst_re` and the `OPMAP` test on what follows the label. */
  function ClassifyBody(body: string, raw: string): (b: Body)
    requires Clean(body)
    ensures b.Inst? ==> Opcode(b.op).Some?
    ensures b.Bad? ==> IsSyntaxError(b.error)
  {
    if body == [] then NoInst
    else
      match MatchInst(body)
      case None => Bad(BadLine(raw))
      case Some(inst) =>
        var op := Upper(inst.0);
        if Opcode(op).Some? then Inst(op, inst.1) else Bad(UnknownOpcode(op, raw))
  }

  /** The first pass's reading of one line: strip comments, take a leading
      `label:`, match the rest against the instruction pattern and look the
      upper-cased mnemonic up in `OPMAP`. */
  function Classify(raw: string): Stmt {
    var line := CleanLine(raw);
    if line == [] then Stmt(None, NoInst)
    else
      var split := SplitLabel(line);
      Stmt(split.0, ClassifyBody(split.1, raw))
  }

  // ---------------------------------------------------------------------------
  // What single lines say

  /** A run of ASCII letters: how a mnemonic is written. */
  predicate Letters(m: string) {
    |m| > 0 && forall i :: 0 <= i < |m| ==> IsAsciiLetter(m[i])
  }

  /** A mnemonic, alone or followed by a space and an operand. */
  function InstText(m: string, arg: string): string {
    if arg == [] then m else m + " " + arg
  }

  lemma InstTextClean(m: string, arg: string)
    requires Letters(m) && Clean(arg)
    ensures Clean(InstText(m, arg)) && CleanLine(InstText(m, arg)) == InstText(m, arg)
  {
    var raw := InstText(m, arg);
    assert raw[0] == m[0];
    assert raw[|raw| - 1] == if arg == [] then m[|m| - 1] else arg[|arg| - 1];
    assert NoMarks(raw) by {
      forall i | 0 <= i < |raw|
        ensures raw[i] != '#' && raw[i] != ';'
      {
        if i < |m| {
          assert raw[i] == m[i];
        } else if i > |m| {
          assert raw[i] == arg[i - |m| - 1];
        }
      }
    }
    assert raw[..|raw|] == raw;
    CleanLineCuts(raw, |raw|);
    StripEnds(raw);
  }

  /** Such a line does not start with a label: the word at its start ends
      at the end of the mnemonic, where no ':' follows. */
  lemma InstTextNoLabel(m: string, arg: string)
    requires Letters(m)
    ensures LabelColon(InstText(m, arg)).None?
  {
    var raw := InstText(m, arg);
    assert forall i :: 0 <= i < |m| ==> raw[i] == m[i];
    if arg != [] {
      assert raw[|m|] == ' ';
    }
  }

  /** ... and the instruction pattern takes the mnemonic and the operand. */
  lemma InstTextMatches(m: string, arg: string)
    requires Letters(m) && Clean(arg) && '\n' !in arg
    requires Clean(InstText(m, arg))
    ensures MatchInst(InstText(m, arg)) == Some((m, arg))
  {
    var raw := InstText(m, arg);
    assert forall i :: 0 <= i < |m| ==> raw[i] == m[i];
    if arg != [] {
      assert raw[|m|] == ' ';
      assert raw[..|m|] == m;
      var rest := raw[|m|..];
      assert rest == " " + arg;
      assert LeadingSpaces(rest) == 1 by {
        assert rest[1..] == arg;
      }
    }
  }

  /** Mnemonics are case-insensitive: a line holding a mnemonic, alone or
      with an operand, is read as the upper-cased mnemonic with that
      operand when `OPMAP` has it, and as an unknown opcode (a
      `SyntaxError`) when it has not. */
  lemma InstLine(m: string, arg: string)
    requires Letters(m) && Clean(arg) && '\n' !in arg
    ensures Classify(InstText(m, arg)).name.None?
    ensures Classify(InstText(m, arg)).body
            == if Opcode(Upper(m)).Some? then Inst(Upper(m), arg) else Bad(UnknownOpcode(Upper(m), InstText(m, arg)))
  {
    InstTextClean(m, arg);
    InstTextNoLabel(m, arg);
    InstTextMatches(m, arg);
  }

  /** A line holding only `label:` binds the label and holds no
      instruction. */
  lemma LabelLine(lab: string)
    requires LabelName(lab)
    ensures Classify(lab + ":") == Stmt(Some(lab), NoInst)
  {
    var raw := lab + ":";
    assert raw[0] == lab[0] && raw[|raw| - 1] == ':';
    assert Clean(raw) by {
      forall i | 0 <= i < |raw|
        ensures raw[i] != '#' && raw[i] != ';'
      {
        if i < |lab| {
          assert raw[i] == lab[i] && IsWordChar(lab[i]);
        }
      }
    }
    assert raw[..|raw|] == raw;
    CleanLineCuts(raw, |raw|);
    StripEnds(raw);
    assert forall i :: 0 <= i < |lab| ==> raw[i] == lab[i];
    var k := WordPrefix(raw);
    assert k == |lab|;
    assert raw[..k] == lab && raw[k + 1..] == [];
  }

  /** A line that is blank up to a comment mark, or blank altogether, is
      skipped. */
  lemma BlankLine(raw: string, j: nat)
    requires j <= |raw| && (j == |raw| || raw[j] == '#' || raw[j] == ';')
    requires forall i :: 0 <= i < j ==> IsSpace(raw[i])
    ensures Classify(raw) == Stmt(None, NoInst)
  {
    CleanLineCuts(raw, j);
    StripAllSpace(raw[..j]);
  }

  /** An instruction as `parse_lines` records it: upper-case mnemonic,
      operand text and offset. */
  datatype Line = Line(op: string, arg: string, offset: nat)

  /** The state of the first pass: the instructions so far, the labels and
      the running offset. */
  datatype Layout = Layout(cleaned: seq<Line>, labels: map<string, int>, offset: nat)

  /** The first pass's step for one line: a label already bound is a
      `SyntaxError`; otherwise the label is bound to the running offset, and
      an instruction is recorded at that offset and advances it by its
      width. */
  function Apply(st: Layout, s: Stmt): Result<Layout, AsmError> {
    if s.name.Some? && s.name.value in st.labels then Err(DuplicateLabel(s.name.value))
    else
      var st1 := if s.name.Some? then st.(labels := st.labels[s.name.value := st.offset]) else st;
      match s.body
      case NoInst => Ok(st1)
      case Bad(e) => Err(e)
      case Inst(op, arg) =>
        Ok(st1.(cleaned := st1.cleaned + [Line(op, arg, st1.offset)], offset := st1.offset + AsmWidth(op)))
  }

  /** The steps in order from the empty layout; the first error ends it. */
  function Fold(stmts: seq<Stmt>): Result<Layout, AsmError> {
    if stmts == [] then Ok(Layout([], map[], 0))
    else
      match Fold(stmts[..|stmts| - 1])
      case Err(e) => Err(e)
      case Ok(st) => Apply(st, stmts[|stmts| - 1])
  }

  function Classified(lines: seq<string>): (stmts: seq<Stmt>)
    ensures |stmts| == |lines| && forall i :: 0 <= i < |lines| ==> stmts[i] == Classify(lines[i])
  {
    seq(|lines|, i requires 0 <= i < |lines| => Classify(lines[i]))
  }

  /** What `parse_lines` returns for the source's lines. */
  function ParseAll(lines: seq<string>): Result<Layout, AsmError> {
    Fold(Classified(lines))
  }

  /** `parse_lines`: returns the instructions and the labels. */
  method ParseLines(lines: seq<string>) returns (r: Result<(seq<Line>, map<string, int>), AsmError>)
    ensures r.Ok? <==> ParseAll(lines).Ok?
    ensures r.Ok? ==> r.value == (ParseAll(lines).value.cleaned, ParseAll(lines).value.labels)
    ensures r.Err? ==> r.error == ParseAll(lines).error
  {
    ghost var stmts := Classified(lines);
    var cleaned: seq<Line> := [];
    var labels: map<string, int> := map[];
    var offset: nat := 0;
    for i := 0 to |lines|
      invariant Fold(stmts[..i]) == Ok(Layout(cleaned, labels, offset))
    {
      FoldStep(stmts, i);
      ghost var st := Layout(cleaned, labels, offset);
      var s := Classify(lines[i]);
      if s.name.Some? {
        if s.name.value in labels {
          FoldErrorSticks(stmts, i + 1);
          return Err(DuplicateLabel(s.name.value));
        }
        labels := labels[s.name.value := offset];
      }
      match s.body
      case NoInst =>
      case Bad(e) =>
        FoldErrorSticks(stmts, i + 1);
        return Err(e);
      case Inst(op, arg) =>
        cleaned := cleaned + [Line(op, arg, offset)];
        offset := offset + (if TakesImm(op) then 5 else 1);
      ApplyOk(st, s, Layout(cleaned, labels, offset));
    }
    assert stmts[..|lines|] == stmts;
    return Ok((cleaned, labels));
  }

  lemma FoldStep(stmts: seq<Stmt>, i: nat)
    requires i < |stmts| && Fold(stmts[..i]).Ok?
    ensures Fold(stmts[..i + 1]) == Apply(Fold(stmts[..i]).value, stmts[i])
  {
    assert stmts[..i + 1][..i] == stmts[..i];
  }

  /** A step that does not fail: the label, if any, is bound to the running
      offset and the instruction, if any, is recorded there. */
  lemma ApplyOk(st: Layout, s: Stmt, next: Layout)
    requires !(s.name.Some? && s.name.value in st.labels) && !s.body.Bad?
    requires next.labels == (if s.name.Some? then st.labels[s.name.value := st.offset] else st.labels)
    requires next.cleaned == (if s.body.Inst? then st.cleaned + [Line(s.body.op, s.body.arg, st.offset)] else st.cleaned)
    requires next.offset == (if s.body.Inst? then st.offset + AsmWidth(s.body.op) else st.offset)
    ensures Apply(st, s) == Ok(next)
  {
  }

  /** Once a step fails, the pass fails with that error. */
  lemma {:induction false} FoldErrorSticks(stmts: seq<Stmt>, i: nat)
    requires i <= |stmts| && Fold(stmts[..i]).Err?
    ensures Fold(stmts) == Fold(stmts[..i])
    decreases |stmts|
  {
    if i < |stmts| {
      var n := |stmts|;
      assert stmts[..n - 1][..i] == stmts[..i];
      FoldErrorSticks(stmts[..n - 1], i);
    } else {
      assert stmts[..i] == stmts;
    }
  }

  lemma {:induction false} FoldErrors(stmts: seq<Stmt>)
    requires forall k :: 0 <= k < |stmts| && stmts[k].body.Bad? ==> IsSyntaxError(stmts[k].body.error)
    ensures Fold(stmts).Err? ==> IsSyntaxError(Fold(stmts).error)
  {
    if stmts != [] {
      FoldErrors(stmts[..|stmts| - 1]);
    }
  }

  /** Every error of the first pass is a `SyntaxError`. */
  lemma ParseErrorsAreSyntax(lines: seq<string>)
    ensures ParseAll(lines).Err? ==> IsSyntaxError(ParseAll(lines).error)
  {
    FoldErrors(Classified(lines));
  }

  /** Where the instruction after the `k`-th one starts: the next
      instruction's offset, or the running offset after the last one. */
  function NextOffset(st: Layout, k: nat): nat {
    if k + 1 < |st.cleaned| then st.cleaned[k + 1].offset else st.offset
  }

  /** The layout `parse_lines` promises: known mnemonics; the first
      instruction at 0 and each one right after the one before it, by the
      width table; and each label at an instruction boundary, that is at an
      instruction's offset or at the end. */
  predicate Laid(st: Layout) {
    (forall k :: 0 <= k < |st.cleaned| ==> Opcode(st.cleaned[k].op).Some?)
    && (if st.cleaned == [] then st.offset == 0 else st.cleaned[0].offset == 0)
    && (forall k :: 0 <= k < |st.cleaned| ==> NextOffset(st, k) == st.cleaned[k].offset + AsmWidth(st.cleaned[k].op))
    && (forall lab :: lab in st.labels ==>
          st.labels[lab] == st.offset || exists k :: 0 <= k < |st.cleaned| && st.labels[lab] == st.cleaned[k].offset)
  }

  /** Binding a label at the running offset keeps the layout. */
  lemma BindLaid(st: Layout, lab: string)
    requires Laid(st)
    ensures Laid(st.(labels := st.labels[lab := st.offset]))
  {
  }

  /** Recording an instruction at the running offset keeps the layout. */
  lemma AppendLaid(st: Layout, op: string, arg: string)
    requires Laid(st) && Opcode(op).Some?
    ensures Laid(st.(cleaned := st.cleaned + [Line(op, arg, st.offset)], offset := st.offset + AsmWidth(op)))
  {
    var r := st.(cleaned := st.cleaned + [Line(op, arg, st.offset)], offset := st.offset + AsmWidth(op));
    var n := |st.cleaned|;
    assert forall k :: 0 <= k < n ==> r.cleaned[k] == st.cleaned[k];
    forall k | 0 <= k < |r.cleaned|
      ensures NextOffset(r, k) == r.cleaned[k].offset + AsmWidth(r.cleaned[k].op)
    {
      if k < n {
        assert NextOffset(st, k) == st.cleaned[k].offset + AsmWidth(st.cleaned[k].op);
      }
    }
    forall lab | lab in r.labels
      ensures r.labels[lab] == r.offset || exists k :: 0 <= k < |r.cleaned| && r.labels[lab] == r.cleaned[k].offset
    {
      if st.labels[lab] == st.offset {
        assert r.labels[lab] == r.cleaned[n].offset;
      } else {
        var k :| 0 <= k < n && st.labels[lab] == st.cleaned[k].offset;
        assert r.labels[lab] == r.cleaned[k].offset;
      }
    }
  }

  lemma ApplyLaid(st: Layout, s: Stmt)
    requires Laid(st) && (s.body.Inst? ==> Opcode(s.body.op).Some?)
    ensures Apply(st, s).Ok? ==> Laid(Apply(st, s).value)
  {
    if Apply(st, s).Ok? {
      var st1 := if s.name.Some? then st.(labels := st.labels[s.name.value := st.offset]) else st;
      assert Laid(st1) by {
        if s.name.Some? {
          BindLaid(st, s.name.value);
        }
      }
      var next := Apply(st, s).value;
      if s.body.Inst? {
        var op := s.body.op;
        assert next == st1.(cleaned := st1.cleaned + [Line(op, s.body.arg, st1.offset)], offset := st1.offset + AsmWidth(op));
        AppendLaid(st1, op, s.body.arg);
      } else {
        assert next == st1;
      }
    }
  }

  lemma {:induction false} FoldLaid(stmts: seq<Stmt>)
    requires forall k :: 0 <= k < |stmts| && stmts[k].body.Inst? ==> Opcode(stmts[k].body.op).Some?
    ensures Fold(stmts).Ok? ==> Laid(Fold(stmts).value)
  {
    if stmts != [] {
      var n := |stmts| - 1;
      FoldLaid(stmts[..n]);
      if Fold(stmts[..n]).Ok? {
        ApplyLaid(Fold(stmts[..n]).value, stmts[n]);
      }
    }
  }

  /** Whatever `parse_lines` returns is laid out by the width table. */
  lemma ParseAllLaid(lines: seq<string>)
    ensures ParseAll(lines).Ok? ==> Laid(ParseAll(lines).value)
  {
    FoldLaid(Classified(lines));
  }

  /** `next` is `st` after more lines: the instructions recorded so far
      stay where they are, the next one recorded sits at the running offset
      of `st` (or, when none follows, the pass ends there), and every label
      bound so far keeps its offset. */
  predicate Extends(st: Layout, next: Layout) {
    |st.cleaned| <= |next.cleaned| && next.cleaned[..|st.cleaned|] == st.cleaned
    && (if |st.cleaned| < |next.cleaned| then next.cleaned[|st.cleaned|].offset == st.offset
        else next.offset == st.offset)
    && forall lab :: lab in st.labels ==> lab in next.labels && next.labels[lab] == st.labels[lab]
  }

  /** A step that succeeds extends every layout its input extends. */
  lemma ApplyExtends(st0: Layout, st: Layout, s: Stmt)
    requires Extends(st0, st) && Apply(st, s).Ok?
    ensures Extends(st0, Apply(st, s).value)
  {
    var r := Apply(st, s).value;
    var n := |st0.cleaned|;
    if s.body.Inst? {
      assert r.cleaned == st.cleaned + [Line(s.body.op, s.body.arg, st.offset)];
      assert r.cleaned[..n] == st.cleaned[..n];
    }
  }

  /** The layout after any prefix of the lines is extended by the layout
      after all of them. */
  lemma {:induction false} FoldExtends(stmts: seq<Stmt>, i: nat)
    requires i <= |stmts| && Fold(stmts).Ok?
    ensures Fold(stmts[..i]).Ok? && Extends(Fold(stmts[..i]).value, Fold(stmts).value)
    decreases |stmts|
  {
    var n := |stmts|;
    if i == n {
      assert stmts[..i] == stmts;
      assert Fold(stmts).value.cleaned[..|Fold(stmts).value.cleaned|] == Fold(stmts).value.cleaned;
    } else {
      assert stmts[..n - 1][..i] == stmts[..i];
      FoldExtends(stmts[..n - 1], i);
      ApplyExtends(Fold(stmts[..i]).value, Fold(stmts[..n - 1]).value, stmts[n - 1]);
    }
  }

  /** A label stands for the offset of the instruction that follows it, or
      for the end of the program when none does. */
  lemma LabelBindsNext(stmts: seq<Stmt>, i: nat)
    requires i < |stmts| && stmts[i].name.Some? && Fold(stmts).Ok?
    ensures Fold(stmts[..i]).Ok?
    ensures var n := |Fold(stmts[..i]).value.cleaned|;
            var r := Fold(stmts).value;
            stmts[i].name.value in r.labels
            && r.labels[stmts[i].name.value] == (if n < |r.cleaned| then r.cleaned[n].offset else r.offset)
  {
    FoldExtends(stmts, i + 1);
    FoldExtends(stmts, i);
    assert stmts[..i + 1][..i] == stmts[..i];
    var pre := Fold(stmts[..i]).value;
    var st1 := Fold(stmts[..i + 1]).value;
    assert st1 == Apply(pre, stmts[i]).value;
    assert stmts[i].name.value in st1.labels && st1.labels[stmts[i].name.value] == pre.offset;
  }

  /** A step that binds a label leaves it bound. */
  lemma LabelBound(stmts: seq<Stmt>, i: nat)
    requires i < |stmts| && stmts[i].name.Some? && Fold(stmts[..i + 1]).Ok?
    ensures stmts[i].name.value in Fold(stmts[..i + 1]).value.labels
  {
    assert stmts[..i + 1][..i] == stmts[..i];
  }

  /** A label bound by two steps makes the pass fail. */
  lemma DuplicateFails(stmts: seq<Stmt>, i: nat, j: nat)
    requires i < j < |stmts| && stmts[i].name.Some? && stmts[j].name == stmts[i].name
    ensures Fold(stmts).Err?
  {
    if Fold(stmts[..j]).Err? {
      FoldErrorSticks(stmts, j);
    } else {
      var pre := stmts[..j];
      FoldExtends(pre, i + 1);
      assert pre[..i + 1] == stmts[..i + 1];
      LabelBound(stmts, i);
      FoldStep(stmts, j);
      FoldErrorSticks(stmts, j + 1);
    }
  }

  /** Defining a label twice is a `SyntaxError`. */
  lemma DuplicateLabelFails(lines: seq<string>, i: nat, j: nat, lab: string)
    requires i < j < |lines|
    requires Classify(lines[i]).name == Some(lab) && Classify(lines[j]).name == Some(lab)
    ensures ParseAll(lines).Err? && IsSyntaxError(ParseAll(lines).error)
  {
    ParseErrorsAreSyntax(lines);
    DuplicateFails(Classified(lines), i, j);
  }

  // ---------------------------------------------------------------------------
  // Operands

  /** `tok.lower().startswith("0x") or tok.lstrip("+-").isdigit()` */
  predicate NumberLike(tok: string) {
    HasHexPrefix(tok) || IsDigits(LStripSigns(tok))
  }

  /** `parse_number`: strip, take an optional leading '-', then `int` in base
      16 after "0x" and in base 10 otherwise, and apply the sign. */
  function ParseNumber(tok: string): Result<int, AsmError> {
    var t := Strip(tok);
    if t == [] then Err(EmptyNumber)
    else
      var neg := t[0] == '-';
      var core := if neg then t[1..] else t;
      var v := if HasHexPrefix(core) then PyInt(core, 16) else PyInt(core, 10);
      match v
      case None => Err(NotANumber(core))
      case Some(x) => Ok(if neg then -x else x)
  }

  /** One side of a '+' or '-' expression. */
  function EvalPart(p: string, labels: map<string, int>, tok: string): Result<int, AsmError> {
    if p == [] then Err(EmptyPart(tok))
    else if NumberLike(p) then ParseNumber(p)
    else if p in labels then Ok(labels[p])
    else Err(UnknownSymbol(p, tok))
  }

  /** `left op right`, the left side evaluated first. */
  function EvalSides(left: string, op: char, right: string, labels: map<string, int>, tok: string): Result<int, AsmError> {
    match EvalPart(left, labels, tok)
    case Err(e) => Err(e)
    case Ok(lv) =>
      match EvalPart(right, labels, tok)
      case Err(e) => Err(e)
      case Ok(rv) => Ok(if op == '+' then lv + rv else lv - rv)
  }

  /** `tok.split(op, 1)` with both parts stripped: the expression's two
      sides. */
  function EvalExpr(tok: string, op: char, labels: map<string, int>): Result<int, AsmError>
    requires op == '+' || op == '-'
  {
    var i := SplitIndex(tok, op);
    EvalSides(Strip(tok[..i]), op, if i < |tok| then Strip(tok[i + 1..]) else "", labels, tok)
  }

  /** Where `tok.split(op, 1)` cuts: at the first `op`, or at the end when
      there is none. */
  function SplitIndex(tok: string, op: char): (i: nat)
    ensures i <= |tok|
  {
    match Find(tok, [op]) case Some(i) => i case None => |tok|
  }

  /** `encode_operand`: a number, an expression with '+' (tried first) or
      '-', or a label. The source's final numeric test repeats the second one
      and is never reached, so it is not modelled. */
  function EncodeOperand(tok: string, labels: map<string, int>): Result<int, AsmError> {
    if tok == [] then Err(NoOperand)
    else
      var t := Strip(tok);
      if t == [] then Err(BlankOperand)
      else if (t[0] == '+' || t[0] == '-') && HasHexPrefix(t[1..]) then ParseNumber(t)
      else if NumberLike(t) then ParseNumber(t)
      else if '+' in t then EvalExpr(t, '+', labels)
      else if '-' in t then EvalExpr(t, '-', labels)
      else if t in labels then Ok(labels[t])
      else Err(UnknownImmediate(t))
  }

  /** A blank token is an error for `parse_number`. */
  lemma ParseNumberBlank(tok: string)
    requires forall i :: 0 <= i < |tok| ==> IsSpace(tok[i])
    ensures ParseNumber(tok) == Err(EmptyNumber)
  {
    StripAllSpace(tok);
  }

  /** A run of decimal digits strips to itself and is a number without a
      sign or "0x". */
  lemma DigitsShape(d: string)
    requires IsDigits(d)
    ensures Strip(d) == d && LStripSigns(d) == d && !HasHexPrefix(d) && NumberLike(d)
    ensures '+' !in d && '-' !in d
  {
    assert IsDecDigit(d[0]) && IsDecDigit(d[|d| - 1]);
    assert LStripSigns(d) == d;
    StripEnds(d);
    if |d| >= 2 {
      assert IsDecDigit(d[1]);
    }
  }

  /** `parse_number` on a stripped decimal token with a leading '-'. */
  lemma ParseNegative(t: string, v: int)
    requires Strip(t) == t && |t| > 1 && t[0] == '-' && !HasHexPrefix(t[1..]) && PyInt(t[1..], 10) == Some(v)
    ensures ParseNumber(t) == Ok(-v)
  {
  }

  /** `parse_number` on a stripped decimal token without a '-'. */
  lemma ParsePositive(t: string, v: int)
    requires Strip(t) == t && |t| > 0 && t[0] != '-' && !HasHexPrefix(t) && PyInt(t, 10) == Some(v)
    ensures ParseNumber(t) == Ok(v)
  {
  }

  /** `parse_number` reads back what `str` prints. */
  lemma ShowIntParses(n: int)
    ensures ParseNumber(ShowInt(n)) == Ok(n)
  {
    var s := ShowInt(n);
    ShowIntStripped(n);
    var m := if n < 0 then -n else n;
    var d := ShowNat(m);
    DigitsShape(d);
    PyIntShowInt(m);
    if n < 0 {
      assert s[1..] == d;
      ParseNegative(s, m);
    } else {
      ParsePositive(s, m);
    }
  }

  /** `parse_number` reads back "0x" and the lower-case hexadecimal digits
      `format(n, "x")` prints, with or without a '-'. */
  lemma HexParses(n: nat)
    ensures ParseNumber("0x" + ShowHex(n)) == Ok(n)
    ensures ParseNumber("-0x" + ShowHex(n)) == Ok(-(n as int))
  {
    var s := "0x" + ShowHex(n);
    HexStripped(n);
    PyIntShowHex(n);
    MinusHex(ShowHex(n));
    HexSigned(s, n);
  }

  lemma MinusHex(h: string)
    ensures "-0x" + h == "-" + ("0x" + h)
  {
  }

  /** A stripped hexadecimal literal that `int(_, 16)` reads as `v` parses
      as `v`, and with a '-' in front as `-v`. */
  lemma HexSigned(s: string, v: int)
    requires Strip(s) == s && Strip("-" + s) == "-" + s && HasHexPrefix(s)
    requires PyInt(s, 16) == Some(v)
    ensures ParseNumber(s) == Ok(v) && ParseNumber("-" + s) == Ok(-v)
  {
    var t := "-" + s;
    assert t[0] == '-' && t[1..] == s;
    assert ParseNumber(t) == match PyInt(s, 16) case None => Err(NotANumber(s)) case Some(x) => Ok(-x);
  }

  /** A label name strips to itself, is not a number and holds no sign. */
  lemma LabelNameShape(lab: string)
    requires LabelName(lab)
    ensures Strip(lab) == lab && lab[0] != '+' && lab[0] != '-' && !NumberLike(lab)
    ensures '+' !in lab && '-' !in lab
  {
    WordNotNumber(lab);
    assert Strip(lab) == lab by {
      assert IsWordChar(lab[|lab| - 1]);
      StripEnds(lab);
    }
  }

  /** A token that starts like a name is neither signed nor a number. */
  lemma WordNotNumber(t: string)
    requires |t| > 0 && (IsAsciiLetter(t[0]) || t[0] == '_')
    ensures t[0] != '+' && t[0] != '-' && !NumberLike(t)
  {
    assert LStripSigns(t) == t;
  }

  /** `encode_operand` on a stripped token that is neither signed nor a
      number: an expression when it holds a sign, '+' first, and otherwise
      a label. */
  lemma EncodeWord(t: string, labels: map<string, int>)
    requires t != [] && Strip(t) == t && t[0] != '+' && t[0] != '-' && !NumberLike(t)
    ensures '+' in t ==> EncodeOperand(t, labels) == EvalExpr(t, '+', labels)
    ensures '+' !in t && '-' in t ==> EncodeOperand(t, labels) == EvalExpr(t, '-', labels)
    ensures '+' !in t && '-' !in t ==>
              EncodeOperand(t, labels) == if t in labels then Ok(labels[t]) else Err(UnknownImmediate(t))
  {
  }

  /** A label operand is the label's offset; a label-shaped name that is not
      bound is an error. */
  lemma LabelOperand(lab: string, labels: map<string, int>)
    requires LabelName(lab)
    ensures lab in labels ==> EncodeOperand(lab, labels) == Ok(labels[lab])
    ensures lab !in labels ==> EncodeOperand(lab, labels) == Err(UnknownImmediate(lab))
  {
    LabelNameShape(lab);
    EncodeWord(lab, labels);
  }

  /** In `lab` followed by a sign and digits, the first occurrence of that
      sign is the one after the label. */
  lemma SignAfterLabel(lab: string, op: char, d: string)
    requires op == '+' || op == '-'
    requires '+' !in lab && '-' !in lab
    ensures Find(lab + [op] + d, [op]) == Some(|lab|)
    ensures (lab + [op] + d)[..|lab|] == lab && (lab + [op] + d)[|lab| + 1..] == d
  {
    var t := lab + [op] + d;
    forall k | 0 <= k < |lab|
      ensures !IsAt(t, [op], k)
    {
      IsAtChar(t, op, k);
      assert t[k] == lab[k];
    }
    IsAtChar(t, op, |lab|);
    assert t[..|lab|] == lab && t[|lab| + 1..] == d;
  }

  /** Every run of decimal digits is a number for `parse_number`. */
  lemma DigitsParse(d: string)
    requires IsDigits(d)
    ensures ParseNumber(d).Ok?
  {
    DigitsShape(d);
    DigitRunDigits(d);
    PyIntUnsigned(d);
    ParsePositive(d, DigitRun(d, 10).value);
  }

  /** `left op right` with the first `op` at `i` and both sides defined. */
  lemma EvalExprAt(t: string, op: char, i: nat, labels: map<string, int>, lv: int, rv: int)
    requires op == '+' || op == '-'
    requires Find(t, [op]) == Some(i)
    requires EvalPart(Strip(t[..i]), labels, t) == Ok(lv) && EvalPart(Strip(t[i + 1..]), labels, t) == Ok(rv)
    ensures EvalExpr(t, op, labels).Ok?
    ensures EvalExpr(t, op, labels).value == if op == '+' then lv + rv else lv - rv
  {
    assert IsAt(t, [op], i) && SplitIndex(t, op) == i;
    EvalSidesOk(Strip(t[..i]), op, Strip(t[i + 1..]), labels, t, lv, rv);
  }

  /** Both sides defined: the sum or difference. */
  lemma EvalSidesOk(left: string, op: char, right: string, labels: map<string, int>, tok: string, lv: int, rv: int)
    requires EvalPart(left, labels, tok) == Ok(lv) && EvalPart(right, labels, tok) == Ok(rv)
    ensures EvalSides(left, op, right, labels, tok).Ok?
    ensures EvalSides(left, op, right, labels, tok).value == if op == '+' then lv + rv else lv - rv
  {
    assert EvalSides(left, op, right, labels, tok).Ok?;
  }

  /** A token from a word character to a digit has no white space around
      it. */
  lemma WordToDigitStripped(t: string)
    requires |t| > 0 && IsWordChar(t[0]) && IsDecDigit(t[|t| - 1])
    ensures Strip(t) == t
  {
    StripEnds(t);
  }

  /** A label followed by a sign and decimal digits is neither a number
      nor signed, and holds a '+' exactly when that sign is one. */
  lemma LabelSignDigits(lab: string, op: char, d: string)
    requires op == '+' || op == '-'
    requires LabelName(lab) && IsDigits(d)
    ensures var t := lab + [op] + d;
            Strip(t) == t && t[0] != '+' && t[0] != '-' && !NumberLike(t)
            && op in t && (op == '-' ==> '+' !in t)
  {
    var t := lab + [op] + d;
    assert t[0] == lab[0];
    WordNotNumber(t);
    assert t[|t| - 1] == d[|d| - 1] && IsDecDigit(d[|d| - 1]) && IsWordChar(lab[0]);
    WordToDigitStripped(t);
    assert op in t by {
      assert t[|lab|] == op;
    }
    assert op == '-' ==> '+' !in t by {
      LabelNameShape(lab);
      DigitsShape(d);
    }
  }

  /** The expression `label op d` evaluates to the label's offset plus or
      minus the number `d`. */
  lemma LabelExpr(lab: string, op: char, d: string, v: int, labels: map<string, int>)
    requires op == '+' || op == '-'
    requires LabelName(lab) && lab in labels && IsDigits(d) && ParseNumber(d) == Ok(v)
    ensures EvalExpr(lab + [op] + d, op, labels).Ok?
    ensures EvalExpr(lab + [op] + d, op, labels).value == if op == '+' then labels[lab] + v else labels[lab] - v
  {
    var t := lab + [op] + d;
    var i := |lab|;
    assert Find(t, [op]) == Some(i) && t[..i] == lab && t[i + 1..] == d by {
      LabelNameShape(lab);
      SignAfterLabel(lab, op, d);
    }
    assert EvalPart(Strip(t[..i]), labels, t) == Ok(labels[lab]) by {
      LabelPart(lab, labels, t);
    }
    assert EvalPart(Strip(t[i + 1..]), labels, t) == Ok(v) by {
      DigitsPart(d, labels, t, v);
    }
    EvalExprAt(t, op, i, labels, labels[lab], v);
  }

  /** A bound label as one side of an expression. */
  lemma LabelPart(lab: string, labels: map<string, int>, tok: string)
    requires LabelName(lab) && lab in labels
    ensures EvalPart(Strip(lab), labels, tok) == Ok(labels[lab])
  {
    LabelNameShape(lab);
  }

  /** Decimal digits as one side of an expression. */
  lemma DigitsPart(d: string, labels: map<string, int>, tok: string, v: int)
    requires IsDigits(d) && ParseNumber(d) == Ok(v)
    ensures EvalPart(Strip(d), labels, tok) == Ok(v)
  {
    DigitsShape(d);
  }

  /** `label+d` and `label-d`, for a bound label and decimal digits `d`
      worth `v`, are the label's offset plus or minus `v`. */
  lemma ExprOperand(lab: string, op: char, d: string, v: int, labels: map<string, int>)
    requires op == '+' || op == '-'
    requires LabelName(lab) && lab in labels && IsDigits(d) && ParseNumber(d) == Ok(v)
    ensures EncodeOperand(lab + [op] + d, labels).Ok?
    ensures EncodeOperand(lab + [op] + d, labels).value == if op == '+' then labels[lab] + v else labels[lab] - v
  {
    var t := lab + [op] + d;
    LabelExpr(lab, op, d, v, labels);
    LabelSignDigits(lab, op, d);
    EncodeWord(t, labels);
  }

  /** `label+n` and `label-n` are the label's offset plus or minus `n`. */
  lemma OffsetOperand(lab: string, n: nat, labels: map<string, int>)
    requires LabelName(lab) && lab in labels
    ensures EncodeOperand(lab + "+" + ShowNat(n), labels).Ok?
    ensures EncodeOperand(lab + "+" + ShowNat(n), labels).value == labels[lab] + n
    ensures EncodeOperand(lab + "-" + ShowNat(n), labels).Ok?
    ensures EncodeOperand(lab + "-" + ShowNat(n), labels).value == labels[lab] - n
  {
    var d := ShowNat(n);
    ShowIntParses(n);
    assert ShowInt(n) == d;
    assert lab + "+" + d == lab + ['+'] + d && lab + "-" + d == lab + ['-'] + d;
    ExprOperand(lab, '+', d, n, labels);
    ExprOperand(lab, '-', d, n, labels);
  }

  // ---------------------------------------------------------------------------
  // Second pass: bytes

  /** One instruction of the second pass: the opcode from `OPMAP` and, for an
      immediate op, the operand modulo 2^32, a missing operand being an
      error; the operand text of the other ops is ignored. */
  function Emit(line: Line, labels: map<string, int>): (r: Result<Instr, AsmError>)
    requires Opcode(line.op).Some?
    ensures r.Ok? ==> WellFormed(r.value) && r.value.op == Opcode(line.op).value
    ensures r.Ok? ==> (r.value.imm.Some? <==> TakesImm(line.op))
    ensures !TakesImm(line.op) ==> r.Ok?
    ensures TakesImm(line.op) && line.arg == [] ==> r == Err(MissingImmediate(line.op, line.offset))
  {
    var code := Opcode(line.op).value;
    if !TakesImm(line.op) then Ok(Instr(code, None))
    else if line.arg == [] then Err(MissingImmediate(line.op, line.offset))
    else
      match EncodeOperand(line.arg, labels)
      case Err(e) => Err(e)
      case Ok(v) => Ok(Instr(code, Some(Mask32(v))))
  }

  /** The instruction or error of every line, each on its own. */
  function Emitted(cleaned: seq<Line>, labels: map<string, int>): (rs: seq<Result<Instr, AsmError>>)
    requires forall k :: 0 <= k < |cleaned| ==> Opcode(cleaned[k].op).Some?
    ensures |rs| == |cleaned| && forall k :: 0 <= k < |cleaned| ==> rs[k] == Emit(cleaned[k], labels)
  {
    seq(|cleaned|, k requires 0 <= k < |cleaned| => Emit(cleaned[k], labels))
  }

  /** The instructions in order, or the first error. */
  function Collect(rs: seq<Result<Instr, AsmError>>): (r: Result<seq<Instr>, AsmError>)
    ensures r.Ok? ==> |r.value| == |rs|
  {
    if rs == [] then Ok([])
    else
      match Collect(rs[..|rs| - 1])
      case Err(e) => Err(e)
      case Ok(prog) =>
        match rs[|rs| - 1]
        case Err(e) => Err(e)
        case Ok(ins) => Ok(prog + [ins])
  }

  /** The instructions the second pass emits, or the first error. */
  function Program(cleaned: seq<Line>, labels: map<string, int>): Result<seq<Instr>, AsmError>
    requires forall k :: 0 <= k < |cleaned| ==> Opcode(cleaned[k].op).Some?
  {
    Collect(Emitted(cleaned, labels))
  }

  /** Collecting succeeds exactly when every line does, and then gives each
      line's instruction. */
  lemma {:induction false} CollectOk(rs: seq<Result<Instr, AsmError>>)
    ensures Collect(rs).Ok? <==> forall k :: 0 <= k < |rs| ==> rs[k].Ok?
    ensures Collect(rs).Ok? ==> forall k :: 0 <= k < |rs| ==> Collect(rs).value[k] == rs[k].value
  {
    if rs != [] {
      var n := |rs| - 1;
      CollectOk(rs[..n]);
      assert forall k :: 0 <= k < n ==> rs[..n][k] == rs[k];
    }
  }

  /** A failing second pass fails with the error of its first failing line. */
  lemma {:induction false} CollectFirstError(rs: seq<Result<Instr, AsmError>>)
    requires Collect(rs).Err?
    ensures exists k :: 0 <= k < |rs| && rs[k] == Err(Collect(rs).error) && forall j :: 0 <= j < k ==> rs[j].Ok?
  {
    var n := |rs| - 1;
    if Collect(rs[..n]).Err? {
      CollectFirstError(rs[..n]);
      var k :| 0 <= k < n && rs[..n][k] == Err(Collect(rs[..n]).error) && forall j :: 0 <= j < k ==> rs[..n][j].Ok?;
      assert rs[k] == rs[..n][k];
      assert forall j :: 0 <= j < k ==> rs[j] == rs[..n][j];
    } else {
      CollectOk(rs[..n]);
      assert forall j :: 0 <= j < n ==> rs[j] == rs[..n][j];
    }
  }

  lemma CollectStep(rs: seq<Result<Instr, AsmError>>, i: nat)
    requires i < |rs| && Collect(rs[..i]).Ok?
    ensures Collect(rs[..i + 1])
            == match rs[i]
               case Err(e) => Err(e)
               case Ok(ins) => Ok(Collect(rs[..i]).value + [ins])
  {
    assert rs[..i + 1][..i] == rs[..i];
  }

  /** Once a line fails, the second pass fails with it. */
  lemma {:induction false} CollectSticks(rs: seq<Result<Instr, AsmError>>, i: nat)
    requires i <= |rs| && Collect(rs[..i]).Err?
    ensures Collect(rs) == Collect(rs[..i])
    decreases |rs|
  {
    if i < |rs| {
      var n := |rs|;
      assert rs[..n - 1][..i] == rs[..i];
      CollectSticks(rs[..n - 1], i);
    } else {
      assert rs[..i] == rs;
    }
  }

  /** The emitted instructions are those of the lines, in order, each
      well-formed for the VM and as wide as the first pass counted it. */
  lemma ProgramWellFormed(cleaned: seq<Line>, labels: map<string, int>, prog: seq<Instr>)
    requires forall k :: 0 <= k < |cleaned| ==> Opcode(cleaned[k].op).Some?
    requires Program(cleaned, labels).Ok? && Program(cleaned, labels).value == prog
    ensures |prog| == |cleaned|
    ensures forall k :: 0 <= k < |prog| ==> Emit(cleaned[k], labels) == Ok(prog[k]) && WellFormed(prog[k])
    ensures forall k :: 0 <= k < |prog| ==> Width(prog[k].op) == AsmWidth(cleaned[k].op)
  {
    CollectOk(Emitted(cleaned, labels));
  }

  /** `assemble`: the bytes of each line in turn (`AssembleLine`); the
      output is the encoding of the second pass's instructions, and the
      error is that of the first line that fails. */
  method Assemble(cleaned: seq<Line>, labels: map<string, int>) returns (r: Result<seq<byte>, AsmError>)
    requires forall k :: 0 <= k < |cleaned| ==> Opcode(cleaned[k].op).Some?
    ensures r.Ok? <==> Program(cleaned, labels).Ok?
    ensures r.Ok? ==> r.value == EncAll(Program(cleaned, labels).value)
    ensures r.Err? ==> r.error == Program(cleaned, labels).error
  {
    ghost var rs := Emitted(cleaned, labels);
    var out: seq<byte> := [];
    for i := 0 to |cleaned|
      invariant Collect(rs[..i]).Ok?
      invariant out == EncAll(Collect(rs[..i]).value)
    {
      var code := AssembleLine(cleaned[i], labels);
      if code.Err? {
        EmitFails(cleaned, labels, i);
        return Err(code.error);
      }
      EmitStep(cleaned, labels, i);
      out := out + code.value;
    }
    assert rs[..|cleaned|] == rs;
    return Ok(out);
  }

  /** The bytes `assemble` appends for one line: its opcode, then for an
      immediate op the four bytes of its operand modulo 2^32, low byte
      first; the encoding of the line's instruction, or its error. */
  method AssembleLine(line: Line, labels: map<string, int>) returns (r: Result<seq<byte>, AsmError>)
    requires Opcode(line.op).Some?
    ensures r.Ok? <==> Emit(line, labels).Ok?
    ensures r.Ok? ==> r.value == EncInstr(Emit(line, labels).value)
    ensures r.Err? ==> r.error == Emit(line, labels).error
  {
    var out := [Opcode(line.op).value];
    if TakesImm(line.op) {
      if line.arg == [] {
        return Err(MissingImmediate(line.op, line.offset));
      }
      var v := EncodeOperand(line.arg, labels);
      if v.Err? {
        return Err(v.error);
      }
      var val := v.value % 0x1_0000_0000;
      out := out + Le32(val);
    }
    return Ok(out);
  }

  /** A line that fails to emit, after lines that all emitted, is the
      error of the second pass. */
  lemma EmitFails(cleaned: seq<Line>, labels: map<string, int>, i: nat)
    requires forall k :: 0 <= k < |cleaned| ==> Opcode(cleaned[k].op).Some?
    requires i < |cleaned| && Collect(Emitted(cleaned, labels)[..i]).Ok?
    requires Emit(cleaned[i], labels).Err?
    ensures Program(cleaned, labels).Err? && Program(cleaned, labels).error == Emit(cleaned[i], labels).error
  {
    var rs := Emitted(cleaned, labels);
    CollectStep(rs, i);
    CollectSticks(rs, i + 1);
  }

  /** A line that emits adds its encoding to the output so far. */
  lemma EmitStep(cleaned: seq<Line>, labels: map<string, int>, i: nat)
    requires forall k :: 0 <= k < |cleaned| ==> Opcode(cleaned[k].op).Some?
    requires i < |cleaned| && Collect(Emitted(cleaned, labels)[..i]).Ok?
    requires Emit(cleaned[i], labels).Ok?
    ensures Collect(Emitted(cleaned, labels)[..i + 1]).Ok?
    ensures EncAll(Collect(Emitted(cleaned, labels)[..i + 1]).value)
            == EncAll(Collect(Emitted(cleaned, labels)[..i]).value) + EncInstr(Emit(cleaned[i], labels).value)
  {
    var rs := Emitted(cleaned, labels);
    var ins := Emit(cleaned[i], labels).value;
    CollectStep(rs, i);
    EncAllAppend(Collect(rs[..i]).value, [ins]);
    assert EncAll([ins]) == EncInstr(ins);
  }

  /** The two passes together: the output is exactly as long as the final
      offset of the first pass and decodes back to the instructions. */
  lemma AssembledDecodes(st: Layout, prog: seq<Instr>)
    requires Laid(st) && Program(st.cleaned, st.labels).Ok? && Program(st.cleaned, st.labels).value == prog
    ensures |EncAll(prog)| == st.offset && Decode(EncAll(prog)) == Ok(prog)
  {
    ProgramWellFormed(st.cleaned, st.labels, prog);
    AssembledOffsets(st, prog);
    DecodeEncAll(prog);
  }

  /** Each opcode of the output sits at the offset the first pass recorded
      for its line. */
  lemma AssembledOpcode(st: Layout, prog: seq<Instr>, k: nat)
    requires Laid(st) && Program(st.cleaned, st.labels).Ok? && Program(st.cleaned, st.labels).value == prog && k < |st.cleaned|
    ensures st.cleaned[k].offset + AsmWidth(st.cleaned[k].op) <= |EncAll(prog)|
    ensures EncAll(prog)[st.cleaned[k].offset] == Opcode(st.cleaned[k].op).value
  {
    ProgramWellFormed(st.cleaned, st.labels, prog);
    PrefixOffsets(st, prog, k);
    OpcodeAtOffset(prog, k);
  }

  /** After an immediate op come the four bytes that read back
      little-endian as its operand modulo 2^32. */
  lemma AssembledOperand(st: Layout, prog: seq<Instr>, k: nat)
    requires Laid(st) && Program(st.cleaned, st.labels).Ok? && Program(st.cleaned, st.labels).value == prog && k < |st.cleaned|
    requires TakesImm(st.cleaned[k].op)
    ensures st.cleaned[k].offset + 5 <= |EncAll(prog)|
    ensures EncodeOperand(st.cleaned[k].arg, st.labels).Ok?
    ensures var code, at := EncAll(prog), st.cleaned[k].offset;
            LeValue(code[at + 1], code[at + 2], code[at + 3], code[at + 4])
            == Mask32(EncodeOperand(st.cleaned[k].arg, st.labels).value)
  {
    assert Footprint(prog[..k]) == st.cleaned[k].offset by {
      ProgramWellFormed(st.cleaned, st.labels, prog);
      PrefixOffsets(st, prog, k);
    }
    OperandAt(st.cleaned, st.labels, prog, k);
  }

  /** The operand bytes of the `k`-th instruction, wherever it starts. */
  lemma OperandAt(cleaned: seq<Line>, labels: map<string, int>, prog: seq<Instr>, k: nat)
    requires forall j :: 0 <= j < |cleaned| ==> Opcode(cleaned[j].op).Some?
    requires Program(cleaned, labels).Ok? && Program(cleaned, labels).value == prog
    requires k < |cleaned| && TakesImm(cleaned[k].op)
    ensures Footprint(prog[..k]) + 5 <= |EncAll(prog)|
    ensures EncodeOperand(cleaned[k].arg, labels).Ok?
    ensures var code, at := EncAll(prog), Footprint(prog[..k]);
            LeValue(code[at + 1], code[at + 2], code[at + 3], code[at + 4])
            == Mask32(EncodeOperand(cleaned[k].arg, labels).value)
  {
    ProgramWellFormed(cleaned, labels, prog);
    EmitImm(cleaned[k], labels);
    ImmAtOffset(prog, k);
  }

  /** An immediate op that emits carries its operand modulo 2^32. */
  lemma EmitImm(line: Line, labels: map<string, int>)
    requires Opcode(line.op).Some? && TakesImm(line.op) && Emit(line, labels).Ok?
    ensures EncodeOperand(line.arg, labels).Ok?
    ensures Emit(line, labels).value.imm == Some(Mask32(EncodeOperand(line.arg, labels).value))
  {
  }

  /** The final offset of the first pass is the width of the output. */
  lemma AssembledOffsets(st: Layout, prog: seq<Instr>)
    requires Laid(st) && |prog| == |st.cleaned|
    requires forall k :: 0 <= k < |prog| ==> Width(prog[k].op) == AsmWidth(st.cleaned[k].op)
    ensures Footprint(prog) == st.offset
  {
    PrefixOffsets(st, prog, |prog|);
    assert prog[..|prog|] == prog;
  }

  /** The width of the first `k` instructions is where the `k`-th starts, or
      the final offset when there is no `k`-th. */
  lemma {:induction false} PrefixOffsets(st: Layout, prog: seq<Instr>, k: nat)
    requires Laid(st) && |prog| == |st.cleaned| && k <= |prog|
    requires forall j :: 0 <= j < |prog| ==> Width(prog[j].op) == AsmWidth(st.cleaned[j].op)
    ensures Footprint(prog[..k]) == if k < |prog| then st.cleaned[k].offset else st.offset
  {
    if k > 0 {
      PrefixOffsets(st, prog, k - 1);
      FootprintSnoc(prog, k);
      assert NextOffset(st, k - 1) == st.cleaned[k - 1].offset + AsmWidth(st.cleaned[k - 1].op);
    }
  }
}
