/**
 * The per-declaration report of the tool: for every function declaration
 * of a top-level declaration group the visitor writes the declaration's
 * text and, when the declaration is not templated and its function type
 * can be lowered, an indented line with its name and its IR type.
 *
 * The compiler's own queries (the declaration printer, the templated test,
 * the convertibility check and the IR type printer) are not modelled: a
 * declaration carries their answers as plain fields.
 */
module Report {

  /** One function declaration, as the compiler's queries describe it. */
  datatype Decl = Decl(
    text: string,        // what the declaration printer writes for it
    name: string,        // its identifier
    isTemplated: bool,   // whether it is a template or inside one
    convertible: bool,   // whether its function type can be lowered
    irText: string       // what the IR type printer writes for its lowered type
  )

  /** One line of the report. */
  datatype ReportLine =
    | DeclText(text: string)
    | Signature(name: string, irType: string)

  const LineBreak: string := "\r\n"
  const Indent: string := "    "
  const NameSeparator: string := " : "

  /** The characters a report line is written as. */
  function Render(line: ReportLine): string
  {
    match line
    case DeclText(t) => t + LineBreak
    case Signature(n, ir) => Indent + n + NameSeparator + ir + LineBreak
  }

  /** The characters a sequence of report lines is written as. */
  function RenderAll(lines: seq<ReportLine>): string
  {
    if |lines| == 0 then "" else Render(lines[0]) + RenderAll(lines[1..])
  }

  /** Whether a signature line is written for `d`: not templated and convertible. */
  predicate IsLowered(d: Decl)
  {
    !d.isTemplated && d.convertible
  }

  /**
   * The lines the visitor writes for one declaration: the declaration text
   * first, then a signature line with its name and IR type exactly when it
   * is lowered, and never a third line.
   */
  function DeclLines(d: Decl): (r: seq<ReportLine>)
    ensures 1 <= |r| <= 2
    ensures r[0] == DeclText(d.text)
    ensures |r| == 2 <==> IsLowered(d)
    ensures |r| == 2 ==> r[1] == Signature(d.name, d.irText)
  {
    if d.isTemplated then [DeclText(d.text)]
    else if d.convertible then [DeclText(d.text), Signature(d.name, d.irText)]
    else [DeclText(d.text)]
  }

  /**
   * The characters the visitor writes for one declaration: its text and a
   * line break, then, for a lowered declaration only, the indented name,
   * the separator, the IR type and a line break.
   */
  function DeclOutput(d: Decl): (r: string)
    ensures |r| >= |d.text| + |LineBreak| && r[..|d.text| + |LineBreak|] == d.text + LineBreak
    ensures |r| == |d.text| + |LineBreak| <==> !IsLowered(d)
  {
    d.text + LineBreak + (if IsLowered(d) then Indent + d.name + NameSeparator + d.irText + LineBreak else "")
  }

  /**
   * The lines written for a declaration group: each declaration's lines, in
   * order, so one or two lines per declaration.
   */
  function GroupLines(ds: seq<Decl>): (r: seq<ReportLine>)
    ensures |ds| <= |r| <= 2 * |ds|
  {
    if |ds| == 0 then [] else DeclLines(ds[0]) + GroupLines(ds[1..])
  }

  /** The texts of the declaration lines among `lines`, in order. */
  function Texts(lines: seq<ReportLine>): seq<string>
  {
    if |lines| == 0 then []
    else (if lines[0].DeclText? then [lines[0].text] else []) + Texts(lines[1..])
  }

  /** The signature lines among `lines`, in order. */
  function Signatures(lines: seq<ReportLine>): seq<ReportLine>
  {
    if |lines| == 0 then []
    else (if lines[0].Signature? then [lines[0]] else []) + Signatures(lines[1..])
  }

  /** The texts of the declarations, in order. */
  function DeclTexts(ds: seq<Decl>): (r: seq<string>)
    ensures |r| == |ds|
    ensures forall i :: 0 <= i < |ds| ==> r[i] == ds[i].text
  {
    if |ds| == 0 then [] else [ds[0].text] + DeclTexts(ds[1..])
  }

  /** The signatures of the lowered declarations, in order, as an independent reference. */
  function LoweredSignatures(ds: seq<Decl>): seq<ReportLine>
  {
    if |ds| == 0 then []
    else
      (if IsLowered(ds[0]) then [Signature(ds[0].name, ds[0].irText)] else [])
        + LoweredSignatures(ds[1..])
  }

  // ---------------------------------------------------------------------
  // One declaration
  // ---------------------------------------------------------------------

  /**
   * A declaration's lines hold exactly one declaration text, its own, and
   * at most one signature, present exactly when the declaration is lowered.
   */
  lemma DeclLinesShape(d: Decl)
    ensures Texts(DeclLines(d)) == [d.text]
    ensures |Signatures(DeclLines(d))| <= 1
    ensures Signatures(DeclLines(d)) == if IsLowered(d) then [Signature(d.name, d.irText)] else []
  {
    var lines := DeclLines(d);
    if IsLowered(d) {
      var sig := Signature(d.name, d.irText);
      assert lines[1..] == [sig];
      assert [sig][1..] == [];
      assert Texts([sig]) == [] + Texts([]);
      assert Signatures([sig]) == [sig] + Signatures([]);
    } else {
      assert lines[1..] == [];
    }
  }

  /** A templated declaration is reported by its text alone, whatever its type. */
  lemma TemplatedTextOnly(d: Decl)
    requires d.isTemplated
    ensures RenderAll(DeclLines(d)) == d.text + LineBreak
  {
    assert RenderAll(DeclLines(d)) == Render(DeclText(d.text)) + RenderAll([]);
  }

  /** The lines of a declaration, rendered: its text line, then its signature line if it is lowered. */
  lemma RenderDeclLines(d: Decl)
    ensures RenderAll(DeclLines(d)) ==
      Render(DeclText(d.text)) + (if IsLowered(d) then Render(Signature(d.name, d.irText)) else "")
  {
    var lines := DeclLines(d);
    if IsLowered(d) {
      var sig := Signature(d.name, d.irText);
      assert lines[1..] == [sig];
      assert RenderAll([sig]) == Render(sig) + RenderAll([sig][1..]);
      assert [sig][1..] == [];
    } else {
      assert lines[1..] == [];
    }
  }

  /** The characters written for a declaration, by case. */
  lemma {:induction false} RenderDecl(d: Decl)
    ensures RenderAll(DeclLines(d)) == DeclOutput(d)
    ensures IsLowered(d) ==>
      RenderAll(DeclLines(d)) == d.text + LineBreak + (Indent + d.name + NameSeparator + d.irText + LineBreak)
    ensures !IsLowered(d) ==> RenderAll(DeclLines(d)) == d.text + LineBreak
  {
    RenderDeclLines(d);
    var head := d.text + LineBreak;
    assert Render(DeclText(d.text)) == head;
    if IsLowered(d) {
      var tail := Indent + d.name + NameSeparator + d.irText + LineBreak;
      assert Render(Signature(d.name, d.irText)) == tail;
      assert DeclOutput(d) == head + tail;
    } else {
      assert head + "" == head;
      assert DeclOutput(d) == head + "";
    }
  }

  // ---------------------------------------------------------------------
  // A declaration group
  // ---------------------------------------------------------------------

  /** Writing report lines distributes over concatenation. */
  lemma {:induction false} RenderAllAppend(xs: seq<ReportLine>, ys: seq<ReportLine>)
    ensures RenderAll(xs + ys) == RenderAll(xs) + RenderAll(ys)
  {
    if |xs| == 0 {
      assert xs + ys == ys;
    } else {
      assert (xs + ys)[1..] == xs[1..] + ys;
      RenderAllAppend(xs[1..], ys);
    }
  }

  /**
   * The visitor carries no state from one declaration to the next: the
   * report for two consecutive runs of declarations is the report of the
   * first followed by the report of the second.
   */
  lemma {:induction false} GroupLinesAppend(xs: seq<Decl>, ys: seq<Decl>)
    ensures GroupLines(xs + ys) == GroupLines(xs) + GroupLines(ys)
  {
    if |xs| == 0 {
      assert xs + ys == ys;
    } else {
      assert (xs + ys)[1..] == xs[1..] + ys;
      GroupLinesAppend(xs[1..], ys);
    }
  }

  /**
   * No declaration stops the pass: the lines of declaration `i` stand in
   * the report between those of the declarations before and after it.
   */
  lemma DeclAt(ds: seq<Decl>, i: int)
    requires 0 <= i < |ds|
    ensures GroupLines(ds) == GroupLines(ds[..i]) + DeclLines(ds[i]) + GroupLines(ds[i + 1..])
  {
    var before, rest, after := ds[..i], ds[i..], ds[i + 1..];
    assert ds == before + rest;
    GroupLinesAppend(before, rest);
    assert rest[0] == ds[i] && rest[1..] == after;
    SeqAssoc(GroupLines(before), DeclLines(ds[i]), GroupLines(after));
  }

  /** Picking out declaration texts distributes over concatenation. */
  lemma {:induction false} TextsAppend(xs: seq<ReportLine>, ys: seq<ReportLine>)
    ensures Texts(xs + ys) == Texts(xs) + Texts(ys)
  {
    if |xs| == 0 {
      assert xs + ys == ys;
    } else {
      var head := if xs[0].DeclText? then [xs[0].text] else [];
      assert (xs + ys)[0] == xs[0];
      assert (xs + ys)[1..] == xs[1..] + ys;
      TextsAppend(xs[1..], ys);
      assert Texts(xs + ys) == head + (Texts(xs[1..]) + Texts(ys));
      assert Texts(xs) == head + Texts(xs[1..]);
      SeqAssoc(head, Texts(xs[1..]), Texts(ys));
    }
  }

  /** Picking out signature lines distributes over concatenation. */
  lemma {:induction false} SignaturesAppend(xs: seq<ReportLine>, ys: seq<ReportLine>)
    ensures Signatures(xs + ys) == Signatures(xs) + Signatures(ys)
  {
    if |xs| == 0 {
      assert xs + ys == ys;
    } else {
      assert (xs + ys)[0] == xs[0];
      assert (xs + ys)[1..] == xs[1..] + ys;
      SignaturesAppend(xs[1..], ys);
    }
  }

  /**
   * Order preservation: the declaration texts in the report are the
   * texts of the group's declarations, each exactly once and in input
   * order, lowered or not.
   */
  lemma {:induction false} GroupTextsInOrder(ds: seq<Decl>)
    ensures Texts(GroupLines(ds)) == DeclTexts(ds)
  {
    if |ds| > 0 {
      GroupTextsInOrder(ds[1..]);
      DeclLinesShape(ds[0]);
      TextsAppend(DeclLines(ds[0]), GroupLines(ds[1..]));
    }
  }

  /**
   * The signature lines in the report are those of the lowered
   * declarations, in input order; a templated or unconvertible one
   * contributes none.
   */
  lemma {:induction false} GroupSignatures(ds: seq<Decl>)
    ensures Signatures(GroupLines(ds)) == LoweredSignatures(ds)
  {
    if |ds| > 0 {
      GroupSignatures(ds[1..]);
      DeclLinesShape(ds[0]);
      SignaturesAppend(DeclLines(ds[0]), GroupLines(ds[1..]));
    }
  }

  /** The report of a group has one line per declaration plus one per lowered declaration. */
  lemma {:induction false} GroupLineCount(ds: seq<Decl>)
    ensures |GroupLines(ds)| == |ds| + |LoweredSignatures(ds)|
  {
    if |ds| > 0 {
      GroupLineCount(ds[1..]);
      DeclLinesShape(ds[0]);
    }
  }

  /** The lines of a longer prefix of a group extend those of the shorter one. */
  lemma GroupPrefixStep(ds: seq<Decl>, i: int)
    requires 0 <= i < |ds|
    ensures GroupLines(ds[..i + 1]) == GroupLines(ds[..i]) + DeclLines(ds[i])
  {
    assert ds[..i + 1] == ds[..i] + [ds[i]];
    GroupLinesAppend(ds[..i], [ds[i]]);
    assert GroupLines([ds[i]]) == DeclLines(ds[i]) + GroupLines([]) by {
      assert [ds[i]][1..] == [];
    }
  }

  /** The rendered report of a longer prefix of a group extends that of the shorter one. */
  lemma RenderPrefixStep(ds: seq<Decl>, i: int)
    requires 0 <= i < |ds|
    ensures RenderAll(GroupLines(ds[..i + 1])) == RenderAll(GroupLines(ds[..i])) + DeclOutput(ds[i])
  {
    GroupPrefixStep(ds, i);
    RenderAllAppend(GroupLines(ds[..i]), DeclLines(ds[i]));
    RenderDecl(ds[i]);
  }

  /** All the declarations of a translation unit, group after group. */
  function Flatten(groups: seq<seq<Decl>>): seq<Decl>
  {
    if |groups| == 0 then [] else groups[0] + Flatten(groups[1..])
  }

  /** The report of a translation unit: each group's report, in order. */
  function UnitLines(groups: seq<seq<Decl>>): seq<ReportLine>
  {
    if |groups| == 0 then [] else GroupLines(groups[0]) + UnitLines(groups[1..])
  }

  /**
   * How the parser splits the declarations into groups does not change the
   * report: it is the report of all declarations in order.
   */
  lemma {:induction false} GroupingIrrelevant(groups: seq<seq<Decl>>)
    ensures UnitLines(groups) == GroupLines(Flatten(groups))
  {
    if |groups| > 0 {
      GroupingIrrelevant(groups[1..]);
      GroupLinesAppend(groups[0], Flatten(groups[1..]));
    }
  }

  // ---------------------------------------------------------------------
  // The output stream, the visitor and the consumer
  // ---------------------------------------------------------------------

  /** The character stream the report is written to. */
  class OutputStream {
    var written: string

    constructor ()
      ensures written == ""
    {
      written := "";
    }

    method Write(s: string)
      modifies this
      ensures written == old(written) + s
    {
      written := written + s;
    }
  }

  /** Concatenation of sequences is associative. */
  lemma SeqAssoc<T>(a: seq<T>, b: seq<T>, c: seq<T>)
    ensures a + b + c == a + (b + c)
  {
  }

  /** Appending nothing leaves a string unchanged. */
  lemma AppendEmpty(a: string)
    ensures a + "" == a
  {
  }

  /** The function-declaration visitor. It has no fields: nothing is kept between visits. */
  class FunctionASTVisitor {

    constructor ()
    {
    }

    /**
     * Writes the declaration's text and a line break; stops there for a
     * templated declaration; otherwise writes the signature line when the
     * type is convertible. Always asks the traversal to continue.
     */
    method VisitFunctionDecl(d: Decl, os: OutputStream) returns (continueTraversal: bool)
      modifies os
      ensures os.written == old(os.written) + DeclOutput(d)
      ensures continueTraversal
    {
      ghost var start := os.written;
      os.Write(d.text);
      os.Write(LineBreak);
      SeqAssoc(start, d.text, LineBreak);
      ghost var afterText := os.written;
      if d.isTemplated {
        AppendEmpty(afterText);
        return true;
      }
      if d.convertible {
        os.Write(Indent);
        os.Write(d.name);
        SeqAssoc(afterText, Indent, d.name);
        os.Write(NameSeparator);
        SeqAssoc(afterText, Indent + d.name, NameSeparator);
        os.Write(d.irText);
        SeqAssoc(afterText, Indent + d.name + NameSeparator, d.irText);
        os.Write(LineBreak);
        SeqAssoc(afterText, Indent + d.name + NameSeparator + d.irText, LineBreak);
      } else {
        AppendEmpty(afterText);
      }
      return true;
    }
  }

  /** The consumer the parser hands each top-level declaration group to. */
  class CHeaderASTConsumer {
    const visitor: FunctionASTVisitor

    constructor ()
    {
      visitor := new FunctionASTVisitor();
    }

    /**
     * Visits every declaration of the group in order and always reports
     * that parsing may go on.
     */
    method HandleTopLevelDecl(group: seq<Decl>, os: OutputStream) returns (continueParsing: bool)
      modifies os
      ensures os.written == old(os.written) + RenderAll(GroupLines(group))
      ensures continueParsing
    {
      for i := 0 to |group|
        invariant os.written == old(os.written) + RenderAll(GroupLines(group[..i]))
      {
        var _ := visitor.VisitFunctionDecl(group[i], os);
        RenderPrefixStep(group, i);
        SeqAssoc(old(os.written), RenderAll(GroupLines(group[..i])), DeclOutput(group[i]));
      }
      assert group[..|group|] == group;
      return true;
    }
  }
}
