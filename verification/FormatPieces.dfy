/** What a format string is for: literal text and replacement fields, written down and scanned back. */
module FormatPieces {
  import opened FormatScanning

  datatype Piece =
    | Lit(text: string)
    | Auto
    | Arg(id: string)
    | ArgWithSpecs(id: string, specs: string)

  function RenderPiece(p: Piece): string {
    match p
    case Lit(text) => Escape(text)
    case Auto => "{}"
    case Arg(id) => "{" + id + "}"
    case ArgWithSpecs(id, specs) => "{" + id + ":" + specs + "}"
  }

  function Render(ps: seq<Piece>): string {
    if ps == [] then "" else RenderPiece(ps[0]) + Render(ps[1..])
  }

  /** The argument a field asks for: the next one, or the one named. */
  function Asked(id: string): Event {
    if id == "" then NextArg else GivenArg(id)
  }

  /** What a handler has to be told about a piece that is written at the given place. */
  function PieceEvents(p: Piece, at: nat): seq<Event> {
    match p
    case Lit(text) => Text(text)
    case Auto => [NextArg, Replace(at + 1)]
    case Arg(id) => [Asked(id), Replace(at + 1 + |id|)]
    case ArgWithSpecs(id, specs) => [Asked(id), Specs(at + 2 + |id|)]
  }

  function AllEvents(ps: seq<Piece>, at: nat): seq<Event> {
    if ps == [] then [] else PieceEvents(ps[0], at) + AllEvents(ps[1..], at + |RenderPiece(ps[0])|)
  }

  ghost predicate AcceptsAll(h: Handler) {
    forall out: seq<Event> :: h.accepts(out)
  }

  /** The parser of argument ids stops at the end of the id written at i. */
  ghost predicate ReadsId(h: Handler, s: string, i: nat, id: string) {
    (id != "" ==> id[0] != '{' && id[0] != '}') && h.parseArgId(s, i) == ArgId(id, i + |id|)
  }

  ghost predicate ReadsSpecs(h: Handler, s: string, i: nat, specs: string) {
    forall out: seq<Event> :: h.onFormatSpecs(out, s, i) == SpecEnd(i + |specs|)
  }

  /** The parsers stop at the end of each part of a piece. */
  ghost predicate Understood(h: Handler, s: string, p: Piece, at: nat) {
    match p
    case Lit(_) => true
    case Auto => true
    case Arg(id) => id != "" && ReadsId(h, s, at + 1, id)
    case ArgWithSpecs(id, specs) => ReadsId(h, s, at + 1, id) && ReadsSpecs(h, s, at + 2 + |id|, specs)
  }

  ghost predicate AllUnderstood(h: Handler, s: string, ps: seq<Piece>, at: nat) {
    ps != [] ==> Understood(h, s, ps[0], at) && AllUnderstood(h, s, ps[1..], at + |RenderPiece(ps[0])|)
  }

  // Where the characters of a part are.

  lemma PartAt(s: string, before: string, part: string, rest: string)
    requires s == before + part + rest
    ensures |before| + |part| <= |s| && s[|before|..|before| + |part|] == part
    ensures forall k :: 0 <= k < |part| ==> s[|before| + k] == part[k]
  {
  }

  /** At an opening brace the scan does what the field says. */
  lemma ScanAtField(h: Handler, s: string, at: nat, out: seq<Event>, pending: string, events: seq<Event>, next: nat)
    requires Sane(h) && at < next <= |s| && s[at] == '{'
    requires Field(h, s, at, out + Text(pending)) == FieldEnd(events, next)
    ensures Scan(h, s, at, out, pending) == Scan(h, s, next, events, "")
  {
    hide Field;
  }

  lemma BrokenAtField(h: Handler, s: string, at: nat, out: seq<Event>, pending: string, events: seq<Event>)
    requires Sane(h) && at < |s| && s[at] == '{'
    requires Field(h, s, at, out + Text(pending)) == Broken(events)
    ensures Scan(h, s, at, out, pending) == Stopped(events)
  {
    hide Field;
  }

  /** An argument id, and on to what follows it. */
  lemma IdRead(h: Handler, s: string, at: nat, id: string, told: seq<Event>)
    requires Sane(h) && AcceptsAll(h) && ReadsId(h, s, at + 1, id) && at + 1 < |s|
    requires s[at + 1] != '{' && s[at + 1] != '}'
    ensures at + 1 + |id| <= |s|
    ensures Field(h, s, at, told) == FieldTail(h, s, at + 1 + |id|, told + [Asked(id)])
  {
    hide FieldTail;
  }

  lemma AutoField(h: Handler, s: string, at: nat, told: seq<Event>)
    requires Sane(h) && AcceptsAll(h) && at + 2 <= |s| && s[at + 1] == '}'
    ensures Field(h, s, at, told) == FieldEnd(told + [NextArg, Replace(at + 1)], at + 2)
  {
    assert told + [NextArg] + [Replace(at + 1)] == told + [NextArg, Replace(at + 1)];
  }

  lemma ArgField(h: Handler, s: string, at: nat, id: string, told: seq<Event>)
    requires Sane(h) && AcceptsAll(h) && ReadsId(h, s, at + 1, id) && at + 2 + |id| <= |s| && id != ""
    requires s[at + 1] == id[0] && s[at + 1 + |id|] == '}'
    ensures Field(h, s, at, told) == FieldEnd(told + [Asked(id), Replace(at + 1 + |id|)], at + 2 + |id|)
  {
    hide Field;
    IdRead(h, s, at, id, told);
    assert told + [Asked(id)] + [Replace(at + 1 + |id|)] == told + [Asked(id), Replace(at + 1 + |id|)];
  }

  /** The specifications, and what follows them. */
  lemma SpecsField(h: Handler, s: string, at: nat, id: string, specs: string, told: seq<Event>)
    requires Sane(h) && AcceptsAll(h) && ReadsId(h, s, at + 1, id) && at + 2 + |id| <= |s|
    requires s[at + 1] == (id + ":")[0] && s[at + 1 + |id|] == ':' && ReadsSpecs(h, s, at + 2 + |id|, specs)
    ensures var m, all := at + 2 + |id| + |specs|, told + [Asked(id), Specs(at + 2 + |id|)];
      && m <= |s|
      && Field(h, s, at, told) == if m < |s| && s[m] == '}' then FieldEnd(all, m + 1)
                                  else Broken(all + [Error("unknown format specifier")])
  {
    hide Field;
    IdRead(h, s, at, id, told);
    assert told + [Asked(id)] + [Specs(at + 2 + |id|)] == told + [Asked(id), Specs(at + 2 + |id|)];
  }

  lemma TailChars(id: string, specs: string, rest: string, tail: string)
    requires tail == "{" + id + ":" + specs + rest
    ensures |tail| == 2 + |id| + |specs| + |rest|
    ensures tail[0] == '{' && tail[1] == (id + ":")[0] && tail[1 + |id|] == ':'
    ensures rest != "" ==> tail[2 + |id| + |specs|] == rest[0]
  {
  }

  lemma ArgChars(s: string, before: string, id: string, rest: string)
    requires s == before + ("{" + id + "}") + rest && id != ""
    ensures |before| + 2 + |id| <= |s| && s[|before|] == '{'
    ensures s[|before| + 1] == id[0] && s[|before| + 1 + |id|] == '}'
  {
    var at, part := |before|, "{" + id + "}";
    PartAt(s, before, part, rest);
    assert s[at + 0] == part[0] && s[at + 1] == part[1] && s[at + (1 + |id|)] == part[1 + |id|];
  }

  lemma SpecsChars(s: string, before: string, id: string, specs: string, rest: string)
    requires s == before + ("{" + id + ":" + specs + "}") + rest
    ensures |before| + 3 + |id| + |specs| <= |s| && s[|before|] == '{'
    ensures s[|before| + 1] == (id + ":")[0] && s[|before| + 1 + |id|] == ':'
    ensures s[|before| + 2 + |id| + |specs|] == '}'
  {
    var at, part := |before|, "{" + id + ":" + specs + "}";
    PartAt(s, before, part, rest);
    TailChars(id, specs, "}", part);
    assert s[at + 0] == part[0] && s[at + 1] == part[1] && s[at + (1 + |id|)] == part[1 + |id|];
    assert s[at + (2 + |id| + |specs|)] == part[2 + |id| + |specs|];
  }

  lemma AutoScans(h: Handler, s: string, before: string, rest: string, told: seq<Event>)
    requires Sane(h) && AcceptsAll(h) && s == before + RenderPiece(Auto) + rest
    requires Understood(h, s, Auto, |before|)
    ensures |before| + |RenderPiece(Auto)| <= |s| && s[|before|] == '{'
    ensures Field(h, s, |before|, told)
         == FieldEnd(told + PieceEvents(Auto, |before|), |before| + |RenderPiece(Auto)|)
  {
    hide Field, Sane, AcceptsAll, ReadsId, ReadsSpecs;
    PartAt(s, before, "{}", rest);
    assert s[|before| + 0] == "{}"[0] && s[|before| + 1] == "{}"[1];
    AutoField(h, s, |before|, told);
  }

  lemma ArgScans(h: Handler, s: string, before: string, id: string, rest: string, told: seq<Event>)
    requires Sane(h) && AcceptsAll(h) && s == before + RenderPiece(Arg(id)) + rest
    requires Understood(h, s, Arg(id), |before|)
    ensures |before| + |RenderPiece(Arg(id))| <= |s| && s[|before|] == '{'
    ensures Field(h, s, |before|, told)
         == FieldEnd(told + PieceEvents(Arg(id), |before|), |before| + |RenderPiece(Arg(id))|)
  {
    hide Field, Sane, AcceptsAll, ReadsId, ReadsSpecs;
    ArgChars(s, before, id, rest);
    ArgField(h, s, |before|, id, told);
  }

  lemma SpecsScans(h: Handler, s: string, before: string, id: string, specs: string, rest: string, told: seq<Event>)
    requires Sane(h) && AcceptsAll(h) && s == before + RenderPiece(ArgWithSpecs(id, specs)) + rest
    requires Understood(h, s, ArgWithSpecs(id, specs), |before|)
    ensures |before| + |RenderPiece(ArgWithSpecs(id, specs))| <= |s| && s[|before|] == '{'
    ensures Field(h, s, |before|, told)
         == FieldEnd(told + PieceEvents(ArgWithSpecs(id, specs), |before|),
              |before| + |RenderPiece(ArgWithSpecs(id, specs))|)
  {
    hide Field, Sane, AcceptsAll, ReadsId, ReadsSpecs;
    SpecsChars(s, before, id, specs, rest);
    SpecsField(h, s, |before|, id, specs, told);
  }

  /** One field, somewhere in a string. */
  lemma FieldScans(h: Handler, s: string, before: string, p: Piece, rest: string, told: seq<Event>)
    requires Sane(h) && AcceptsAll(h) && !p.Lit? && s == before + RenderPiece(p) + rest
    requires Understood(h, s, p, |before|)
    ensures |before| + |RenderPiece(p)| <= |s| && s[|before|] == '{'
    ensures Field(h, s, |before|, told)
         == FieldEnd(told + PieceEvents(p, |before|), |before| + |RenderPiece(p)|)
  {
    hide Field, Sane, AcceptsAll, Understood, RenderPiece, PieceEvents;
    match p
    case Auto => AutoScans(h, s, before, rest, told);
    case Arg(id) => ArgScans(h, s, before, id, rest, told);
    case ArgWithSpecs(id, specs) => SpecsScans(h, s, before, id, specs, rest, told);
  }

  /** One character of a literal. */
  lemma CharScans(h: Handler, s: string, before: string, c: char, rest: string, out: seq<Event>, pending: string)
    returns (out2: seq<Event>, pending2: string)
    requires Sane(h) && s == before + Escape([c]) + rest
    ensures var next := |before| + |Escape([c])|;
      next <= |s| && Scan(h, s, |before|, out, pending) == Scan(h, s, next, out2, pending2)
    ensures out2 + Text(pending2) == out + Text(pending) + [Char(c)]
  {
    var at := |before|;
    assert Escape([c]) == if c == '{' then "{{" else if c == '}' then "}}" else [c] by {
      assert [c][1..] == "";
    }
    if c == '{' {
      assert s[at] == '{' && s[at + 1] == '{';
      out2, pending2 := out + Text(pending) + [Char('{')], "";
    } else if c == '}' {
      assert s[at] == '}' && s[at + 1] == '}';
      TextAppend(pending, "}");
      out2, pending2 := out + Text(pending + "}"), "";
    } else {
      assert s[at] == c;
      TextAppend(pending, [c]);
      out2, pending2 := out, pending + [c];
    }
  }

  lemma EscapeFirst(t: string)
    requires t != ""
    ensures Escape(t) == Escape([t[0]]) + Escape(t[1..]) && t == [t[0]] + t[1..]
  {
    assert [t[0]][1..] == "";
    assert Escape([t[0]]) == if t[0] == '{' then "{{" else if t[0] == '}' then "}}" else [t[0]];
  }

  lemma {:induction false} LiteralScans(h: Handler, s: string, before: string, t: string, rest: string,
                                        out: seq<Event>, pending: string)
    returns (out2: seq<Event>, pending2: string)
    requires Sane(h) && s == before + Escape(t) + rest
    ensures var next := |before| + |Escape(t)|;
      next <= |s| && Scan(h, s, |before|, out, pending) == Scan(h, s, next, out2, pending2)
    ensures out2 + Text(pending2) == out + Text(pending) + Text(t)
    decreases |t|
  {
    hide Scan, Sane;
    if t == "" {
      assert out + Text(pending) + Text("") == out + Text(pending);
      return out, pending;
    }
    var first := Escape([t[0]]);
    EscapeFirst(t);
    assert s == before + first + (Escape(t[1..]) + rest);
    out2, pending2 := CharScans(h, s, before, t[0], Escape(t[1..]) + rest, out, pending);
    var mid := out2 + Text(pending2);
    assert s == (before + first) + Escape(t[1..]) + rest;
    out2, pending2 := LiteralScans(h, s, before + first, t[1..], rest, out2, pending2);
    TextAppend([t[0]], t[1..]);
    assert mid + Text(t[1..]) == out + Text(pending) + Text(t);
  }

  /** Pieces at the front of what is left are told one after the other. */
  lemma {:induction false} PiecesScan(h: Handler, s: string, before: string, ps: seq<Piece>, rest: string,
                                      out: seq<Event>, pending: string)
    returns (out2: seq<Event>, pending2: string)
    requires Sane(h) && AcceptsAll(h) && s == before + Render(ps) + rest
    requires AllUnderstood(h, s, ps, |before|)
    ensures var next := |before| + |Render(ps)|;
      next <= |s| && Scan(h, s, |before|, out, pending) == Scan(h, s, next, out2, pending2)
    ensures out2 + Text(pending2) == out + Text(pending) + AllEvents(ps, |before|)
    decreases |ps|
  {
    hide Scan, Sane, Understood, PieceEvents, AcceptsAll, RenderPiece, Field;
    if ps == [] {
      assert out + Text(pending) + [] == out + Text(pending);
      return out, pending;
    }
    var p, more := ps[0], Render(ps[1..]) + rest;
    assert s == before + RenderPiece(p) + more;
    out2, pending2 := PieceScans(h, s, before, p, more, out, pending);
    var mid := out2 + Text(pending2);
    assert s == (before + RenderPiece(p)) + Render(ps[1..]) + rest;
    out2, pending2 := PiecesScan(h, s, before + RenderPiece(p), ps[1..], rest, out2, pending2);
    Joined(out + Text(pending), PieceEvents(p, |before|), AllEvents(ps[1..], |before + RenderPiece(p)|));
  }

  lemma Joined(a: seq<Event>, b: seq<Event>, c: seq<Event>)
    ensures (a + b) + c == a + (b + c)
  {
  }

  lemma PieceScans(h: Handler, s: string, before: string, p: Piece, rest: string, out: seq<Event>, pending: string)
    returns (out2: seq<Event>, pending2: string)
    requires Sane(h) && AcceptsAll(h) && s == before + RenderPiece(p) + rest && Understood(h, s, p, |before|)
    ensures var next := |before| + |RenderPiece(p)|;
      next <= |s| && Scan(h, s, |before|, out, pending) == Scan(h, s, next, out2, pending2)
    ensures out2 + Text(pending2) == out + Text(pending) + PieceEvents(p, |before|)
  {
    hide Scan, Sane, AcceptsAll, Field, Escape, Understood;
    if p.Lit? {
      out2, pending2 := LiteralScans(h, s, before, p.text, rest, out, pending);
    } else {
      out2 := FieldPieceScans(h, s, before, p, rest, out, pending);
      pending2 := "";
      assert out2 + Text("") == out2;
    }
  }

  lemma FieldPieceScans(h: Handler, s: string, before: string, p: Piece, rest: string, out: seq<Event>,
                        pending: string) returns (out2: seq<Event>)
    requires Sane(h) && AcceptsAll(h) && s == before + RenderPiece(p) + rest && Understood(h, s, p, |before|) && !p.Lit?
    ensures var next := |before| + |RenderPiece(p)|;
      next <= |s| && Scan(h, s, |before|, out, pending) == Scan(h, s, next, out2, "")
    ensures out2 == out + Text(pending) + PieceEvents(p, |before|)
  {
    hide Scan, Sane, Understood, PieceEvents, AcceptsAll, RenderPiece, Field;
    FieldScans(h, s, before, p, rest, out + Text(pending));
    out2 := out + Text(pending) + PieceEvents(p, |before|);
    FieldMoves(h, s, |before|, out + Text(pending));
    ScanAtField(h, s, |before|, out, pending, out2, |before| + |RenderPiece(p)|);
  }

  lemma FieldMoves(h: Handler, s: string, at: nat, told: seq<Event>)
    requires Sane(h) && at < |s|
    ensures Field(h, s, at, told).FieldEnd? ==> at < Field(h, s, at, told).next
  {
  }

  lemma AfterPieces(h: Handler, ps: seq<Piece>, tail: string) returns (out: seq<Event>, pending: string)
    requires Sane(h) && AcceptsAll(h) && AllUnderstood(h, Render(ps) + tail, ps, 0)
    ensures Scan(h, Render(ps) + tail, 0, [], "") == Scan(h, Render(ps) + tail, |Render(ps)|, out, pending)
    ensures out + Text(pending) == AllEvents(ps, 0)
    ensures forall k :: 0 <= k < |tail| ==> (Render(ps) + tail)[|Render(ps)| + k] == tail[k]
  {
    hide Scan, Sane, AcceptsAll, AllUnderstood, RenderPiece, PieceEvents;
    var s := Render(ps) + tail;
    assert s == "" + Render(ps) + tail;
    out, pending := PiecesScan(h, s, "", ps, tail, [], "");
    assert [] + Text("") + AllEvents(ps, 0) == AllEvents(ps, 0);
  }

  // Without errors.

  lemma ScanEnds(h: Handler, s: string, out: seq<Event>, pending: string)
    requires Sane(h)
    ensures Scan(h, s, |s|, out, pending) == Finished(out + Text(pending))
  {
  }

  /** Text and fields that are written down and scanned come out as they were meant, in order, and nothing else does. */
  lemma RenderRoundTrip(h: Handler, ps: seq<Piece>)
    requires Sane(h) && AcceptsAll(h) && AllUnderstood(h, Render(ps), ps, 0)
    ensures Scan(h, Render(ps), 0, [], "") == Finished(AllEvents(ps, 0))
  {
    hide Scan, Sane, AcceptsAll, AllUnderstood, Render, AllEvents;
    assert Render(ps) + "" == Render(ps);
    var out, pending := AfterPieces(h, ps, "");
    ScanEnds(h, Render(ps), out, pending);
  }

  // Errors, after any pieces.

  /** A closing brace alone. Text that is pending is not handed over any more. */
  lemma UnmatchedBrace(h: Handler, ps: seq<Piece>, rest: string)
    requires Sane(h) && AcceptsAll(h) && (rest == "" || rest[0] != '}')
    requires AllUnderstood(h, Render(ps) + ("}" + rest), ps, 0)
    ensures var r := Scan(h, Render(ps) + ("}" + rest), 0, [], "");
      && r.Stopped? && r.events != [] && r.events[|r.events| - 1] == Error("unmatched '}' in format string")
      && r.events[..|r.events| - 1] <= AllEvents(ps, 0)
  {
    hide Scan, Sane, AcceptsAll, AllUnderstood, Render, AllEvents;
    var tail, at := "}" + rest, |Render(ps)|;
    var out, pending := AfterPieces(h, ps, tail);
    var s := Render(ps) + tail;
    assert s[at + 0] == tail[0];
    assert rest != "" ==> s[at + 1] == tail[1] == rest[0];
    ScanUnmatched(h, s, at, out, pending);
    assert (out + [Error("unmatched '}' in format string")])[..|out|] == out;
  }

  lemma ScanUnmatched(h: Handler, s: string, at: nat, out: seq<Event>, pending: string)
    requires Sane(h) && at < |s| && s[at] == '}' && (at + 1 == |s| || s[at + 1] != '}')
    ensures Scan(h, s, at, out, pending) == Stopped(out + [Error("unmatched '}' in format string")])
  {
  }

  /** An opening brace at the very end. */
  lemma OpenAtEnd(h: Handler, ps: seq<Piece>)
    requires Sane(h) && AcceptsAll(h) && AllUnderstood(h, Render(ps) + "{", ps, 0)
    ensures Scan(h, Render(ps) + "{", 0, [], "") == Stopped(AllEvents(ps, 0) + [Error("invalid format string")])
  {
    var out, pending := AfterPieces(h, ps, "{");
    assert (Render(ps) + "{")[|Render(ps)| + 0] == "{"[0];
    BrokenAtField(h, Render(ps) + "{", |Render(ps)|, out, pending,
                  AllEvents(ps, 0) + [Error("invalid format string")]);
  }

  /** After the id neither a closing brace nor a colon. */
  lemma MissingBrace(h: Handler, ps: seq<Piece>, id: string, rest: string)
    requires Sane(h) && AcceptsAll(h) && (rest == "" || (rest[0] != '}' && rest[0] != ':')) && id + rest != ""
    requires id == "" ==> rest[0] != '{'
    requires var s := Render(ps) + ("{" + id + rest);
      AllUnderstood(h, s, ps, 0) && ReadsId(h, s, |Render(ps)| + 1, id)
    ensures Scan(h, Render(ps) + ("{" + id + rest), 0, [], "")
         == Stopped(AllEvents(ps, 0) + [Asked(id), Error("missing '}' in format string")])
  {
    hide Scan, Sane, AcceptsAll, Field, AllUnderstood, Render, AllEvents;
    var tail, at, all := "{" + id + rest, |Render(ps)|, AllEvents(ps, 0);
    var s := Render(ps) + tail;
    var out, pending := AfterPieces(h, ps, tail);
    assert s[at + 0] == tail[0] && s[at + 1] == tail[1];
    assert rest != "" ==> s[at + (1 + |id|)] == tail[1 + |id|] == rest[0];
    IdRead(h, s, at, id, all);
    Joined(all, [Asked(id)], [Error("missing '}' in format string")]);
    BrokenAtField(h, s, at, out, pending, all + [Asked(id), Error("missing '}' in format string")]);
  }

  /** After the specifications no closing brace. */
  lemma UnknownSpecifier(h: Handler, ps: seq<Piece>, id: string, specs: string, rest: string)
    requires Sane(h) && AcceptsAll(h) && (rest == "" || rest[0] != '}')
    requires var s := Render(ps) + ("{" + id + ":" + specs + rest);
      && AllUnderstood(h, s, ps, 0) && ReadsId(h, s, |Render(ps)| + 1, id)
      && ReadsSpecs(h, s, |Render(ps)| + 2 + |id|, specs)
    ensures Scan(h, Render(ps) + ("{" + id + ":" + specs + rest), 0, [], "")
         == Stopped(AllEvents(ps, 0)
                    + [Asked(id), Specs(|Render(ps)| + 2 + |id|), Error("unknown format specifier")])
  {
    hide Scan, Sane, AcceptsAll, Field, AllUnderstood, Render, AllEvents, ReadsId, ReadsSpecs;
    var tail, at, all := "{" + id + ":" + specs + rest, |Render(ps)|, AllEvents(ps, 0);
    AfterColon(h, Render(ps) + tail, at, id, specs, rest, tail, all, ps);
  }

  lemma AfterColon(h: Handler, s: string, at: nat, id: string, specs: string, rest: string, tail: string,
                   all: seq<Event>, ps: seq<Piece>)
    requires Sane(h) && AcceptsAll(h) && (rest == "" || rest[0] != '}') && tail == "{" + id + ":" + specs + rest
    requires at == |Render(ps)| && s == Render(ps) + tail && all == AllEvents(ps, 0)
    requires AllUnderstood(h, s, ps, 0) && ReadsId(h, s, at + 1, id) && ReadsSpecs(h, s, at + 2 + |id|, specs)
    ensures Scan(h, s, 0, [], "")
         == Stopped(all + [Asked(id), Specs(at + 2 + |id|), Error("unknown format specifier")])
  {
    hide Scan, Sane, AcceptsAll, Field, AllUnderstood, Render, AllEvents, ReadsId, ReadsSpecs;
    var out, pending := AfterPieces(h, ps, tail);
    TailChars(id, specs, rest, tail);
    assert s[at + 0] == tail[0] && s[at + 1] == tail[1] && s[at + (1 + |id|)] == tail[1 + |id|];
    assert rest != "" ==> s[at + (2 + |id| + |specs|)] == tail[2 + |id| + |specs|];
    SpecsField(h, s, at, id, specs, all);
    Joined(all, [Asked(id), Specs(at + 2 + |id|)], [Error("unknown format specifier")]);
    BrokenAtField(h, s, at, out, pending,
                  all + [Asked(id), Specs(at + 2 + |id|), Error("unknown format specifier")]);
  }

  // Handlers that refuse.

  predicate Asks(e: Event) {
    !e.Char? && !e.Error?
  }

  /** The handler agreed to every event it was asked about. */
  ghost predicate Agreed(h: Handler, events: seq<Event>) {
    forall k :: 0 <= k < |events| && Asks(events[k]) ==> h.accepts(events[..k + 1])
  }

  /** The scan was ended by its last event: an error, or a refusal. */
  ghost predicate EndedBy(h: Handler, events: seq<Event>) {
    && events != [] && Agreed(h, events[..|events| - 1])
    && (events[|events| - 1].Error? || (Asks(events[|events| - 1]) && !h.accepts(events)))
  }

  lemma AgreedMore(h: Handler, out: seq<Event>, e: Event)
    requires Agreed(h, out)
    ensures (out + [e])[..|out|] == out
    ensures Asks(e) ==> h.accepts(out + [e]) ==> Agreed(h, out + [e])
    ensures Asks(e) ==> !h.accepts(out + [e]) ==> EndedBy(h, out + [e])
    ensures e.Char? ==> Agreed(h, out + [e])
    ensures e.Error? ==> EndedBy(h, out + [e])
  {
    var all := out + [e];
    assert all[..|out|] == out && all[..|all|] == all;
    forall k | 0 <= k < |out| && Asks(all[k])
      ensures h.accepts(all[..k + 1])
    {
      assert all[..k + 1] == out[..k + 1];
    }
  }

  lemma {:induction false} AgreedText(h: Handler, out: seq<Event>, t: string)
    requires Agreed(h, out)
    ensures Agreed(h, out + Text(t))
    decreases |t|
  {
    hide Agreed, EndedBy;
    if t != "" {
      AgreedMore(h, out, Char(t[0]));
      AgreedText(h, out + [Char(t[0])], t[1..]);
      FirstEscaped(out, t);
    } else {
      assert out + Text(t) == out;
    }
  }

  /** What a field, or any part of it, promises. */
  ghost predicate FieldAgreed(h: Handler, r: FieldEnd) {
    match r
    case FieldEnd(events, _) => Agreed(h, events)
    case Broken(events) => EndedBy(h, events)
  }

  lemma TellAgreed(h: Handler, out: seq<Event>, e: Event, next: nat)
    requires Agreed(h, out) && Asks(e)
    ensures FieldAgreed(h, Tell(h, out, e, next))
  {
    hide Agreed, EndedBy;
    AgreedMore(h, out, e);
  }

  lemma ErrorAgreed(h: Handler, out: seq<Event>, message: string)
    requires Agreed(h, out)
    ensures FieldAgreed(h, Broken(out + [Error(message)]))
  {
    hide Agreed, EndedBy;
    AgreedMore(h, out, Error(message));
  }

  lemma TailAgreed(h: Handler, s: string, k: nat, out: seq<Event>)
    requires Sane(h) && k <= |s| && Agreed(h, out)
    ensures FieldAgreed(h, FieldTail(h, s, k, out))
  {
    hide Agreed, EndedBy, Sane;
    TellAgreed(h, out, Replace(k), k + 1);
    TellAgreed(h, out, Specs(k + 1), k + 1);
    ErrorAgreed(h, out, "missing '}' in format string");
    var told := Tell(h, out, Specs(k + 1), k + 1);
    if told.FieldEnd? {
      ErrorAgreed(h, told.events, "unknown format specifier");
      if k < |s| && h.onFormatSpecs(told.events, s, k + 1).BadSpecs? {
        ErrorAgreed(h, told.events, h.onFormatSpecs(told.events, s, k + 1).message);
      }
    }
  }

  lemma FieldIsAgreed(h: Handler, s: string, i: nat, out: seq<Event>)
    requires Sane(h) && i < |s| && Agreed(h, out)
    ensures FieldAgreed(h, Field(h, s, i, out))
  {
    hide Agreed, EndedBy, FieldTail;
    if i + 1 == |s| {
      ErrorAgreed(h, out, "invalid format string");
    } else if s[i + 1] == '}' {
      TellAgreed(h, out, NextArg, i + 1);
      var told := Tell(h, out, NextArg, i + 1);
      if told.FieldEnd? {
        TellAgreed(h, told.events, Replace(i + 1), i + 2);
      }
    } else if s[i + 1] == '{' {
      AgreedMore(h, out, Char('{'));
    } else {
      match h.parseArgId(s, i + 1)
      case BadArgId(message) => ErrorAgreed(h, out, message);
      case ArgId(id, k) =>
        TellAgreed(h, out, Asked(id), k);
        if Tell(h, out, Asked(id), k).FieldEnd? {
          TailAgreed(h, s, k, out + [Asked(id)]);
        }
    }
  }

  /** Whatever the handler is: the scan goes on as long as it agrees, and ends at the first refusal or error. */
  lemma {:induction false} RefusalEnds(h: Handler, s: string, i: nat, out: seq<Event>, pending: string)
    requires Sane(h) && i <= |s| && Agreed(h, out)
    ensures match Scan(h, s, i, out, pending)
      case Finished(events) => Agreed(h, events)
      case Stopped(events) => EndedBy(h, events)
    decreases |s| - i
  {
    hide Agreed, EndedBy, Field, Sane;
    AgreedText(h, out, pending);
    if i < |s| {
      if s[i] == '{' {
        FieldIsAgreed(h, s, i, out + Text(pending));
        FieldMoves(h, s, i, out + Text(pending));
        match Field(h, s, i, out + Text(pending))
        case FieldEnd(events, next) => RefusalEnds(h, s, next, events, "");
        case Broken(events) =>
      } else if s[i] == '}' {
        if i + 1 == |s| || s[i + 1] != '}' {
          AgreedMore(h, out, Error("unmatched '}' in format string"));
        } else {
          AgreedText(h, out, pending + "}");
          RefusalEnds(h, s, i + 2, out + Text(pending + "}"), "");
        }
      } else {
        RefusalEnds(h, s, i + 1, out, pending + [s[i]]);
      }
    }
  }
}
