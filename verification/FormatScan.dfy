/** The scanner of format strings: one pass for short strings, two passes of searching for long ones. */
module FormatScanning {

  /** What the handler is told. Text comes character by character, so it does not matter how it was cut into pieces. */
  datatype Event =
    | Char(c: char)
    | NextArg
    | GivenArg(id: string)
    | Replace(at: nat)
    | Specs(at: nat)
    | Error(message: string)

  /** on_error does not return, and so does a handler that refuses an argument: both end the scan. */
  datatype Outcome = Finished(events: seq<Event>) | Stopped(events: seq<Event>)

  datatype ArgId = ArgId(id: string, next: nat) | BadArgId(message: string)

  datatype SpecEnd = SpecEnd(next: nat) | BadSpecs(message: string)

  /** The rest of the parser, and the handler. What a handler does may depend on all it was told before. */
  datatype Handler = Handler(
    parseArgId: (string, nat) -> ArgId,
    onFormatSpecs: (seq<Event>, string, nat) -> SpecEnd,
    accepts: seq<Event> -> bool)

  /** Parsers move forward, and not past the end. */
  ghost predicate Sane(h: Handler) {
    && (forall s: string, i: nat :: i <= |s| && h.parseArgId(s, i).ArgId? ==> i <= h.parseArgId(s, i).next <= |s|)
    && (forall out: seq<Event>, s: string, i: nat :: i <= |s| && h.onFormatSpecs(out, s, i).SpecEnd? ==>
          i <= h.onFormatSpecs(out, s, i).next <= |s|)
  }

  function Text(s: string): seq<Event> {
    seq(|s|, i requires 0 <= i < |s| => Char(s[i]))
  }

  lemma TextAppend(s: string, t: string)
    ensures Text(s + t) == Text(s) + Text(t)
  {
  }

  /** Where a replacement field ends, or how it ended the scan. */
  datatype FieldEnd = FieldEnd(events: seq<Event>, next: nat) | Broken(events: seq<Event>)

  /** Tells the handler, which may refuse. */
  function Tell(h: Handler, out: seq<Event>, e: Event, next: nat): FieldEnd {
    if h.accepts(out + [e]) then FieldEnd(out + [e], next) else Broken(out + [e])
  }

  /** The closing part of a field whose argument id ends at k. */
  function FieldTail(h: Handler, s: string, k: nat, out: seq<Event>): (r: FieldEnd)
    requires Sane(h) && k <= |s|
    ensures r.FieldEnd? ==> k < r.next <= |s|
  {
    if k < |s| && s[k] == '}' then Tell(h, out, Replace(k), k + 1)
    else if k < |s| && s[k] == ':' then
      var told := Tell(h, out, Specs(k + 1), k + 1);
      if told.Broken? then told
      else match h.onFormatSpecs(told.events, s, k + 1) {
        case BadSpecs(message) => Broken(told.events + [Error(message)])
        case SpecEnd(m) =>
          if m == |s| || s[m] != '}' then Broken(told.events + [Error("unknown format specifier")])
          else FieldEnd(told.events, m + 1)
      }
    else Broken(out + [Error("missing '}' in format string")])
  }

  /** parse_replacement_field at an opening brace. */
  function Field(h: Handler, s: string, i: nat, out: seq<Event>): (r: FieldEnd)
    requires Sane(h) && i < |s|
    ensures r.FieldEnd? ==> i < r.next <= |s|
  {
    if i + 1 == |s| then Broken(out + [Error("invalid format string")])
    else if s[i + 1] == '}' then
      var told := Tell(h, out, NextArg, i + 1);
      if told.Broken? then told else Tell(h, told.events, Replace(i + 1), i + 2)
    else if s[i + 1] == '{' then FieldEnd(out + [Char('{')], i + 2)
    else match h.parseArgId(s, i + 1) {
      case BadArgId(message) => Broken(out + [Error(message)])
      case ArgId(id, k) =>
        var told := Tell(h, out, if id == "" then NextArg else GivenArg(id), k);
        if told.Broken? then told else FieldTail(h, s, k, told.events)
    }
  }

  /** The scan, character by character: the meaning of a format string. pending is text not yet handed over. */
  function Scan(h: Handler, s: string, i: nat, out: seq<Event>, pending: string): Outcome
    requires Sane(h) && i <= |s|
    decreases |s| - i
  {
    if i == |s| then Finished(out + Text(pending))
    else if s[i] == '{' then
      match Field(h, s, i, out + Text(pending)) {
        case Broken(events) => Stopped(events)
        case FieldEnd(events, next) => Scan(h, s, next, events, "")
      }
    else if s[i] == '}' then
      if i + 1 == |s| || s[i + 1] != '}' then Stopped(out + [Error("unmatched '}' in format string")])
      else Scan(h, s, i + 2, out + Text(pending + "}"), "")
    else Scan(h, s, i + 1, out, pending + [s[i]])
  }

  method ParseReplacementField(h: Handler, s: string, i: nat, out: seq<Event>) returns (r: FieldEnd)
    requires Sane(h) && i < |s| && s[i] == '{'
    ensures r == Field(h, s, i, out)
  {
    var begin := i + 1;
    if begin == |s| {
      return Broken(out + [Error("invalid format string")]);
    }
    if s[begin] == '}' {
      r := Tell(h, out, NextArg, begin);
      if r.FieldEnd? {
        r := Tell(h, r.events, Replace(begin), begin + 1);
      }
      return;
    }
    if s[begin] == '{' {
      return FieldEnd(out + [Char('{')], begin + 1);
    }
    var id := h.parseArgId(s, begin);
    if id.BadArgId? {
      return Broken(out + [Error(id.message)]);
    }
    r := Tell(h, out, if id.id == "" then NextArg else GivenArg(id.id), id.next);
    if r.FieldEnd? {
      begin := id.next;
      if begin < |s| && s[begin] == '}' {
        r := Tell(h, r.events, Replace(begin), begin + 1);
      } else if begin < |s| && s[begin] == ':' {
        r := Tell(h, r.events, Specs(begin + 1), begin + 1);
        if r.FieldEnd? {
          var end := h.onFormatSpecs(r.events, s, begin + 1);
          if end.BadSpecs? {
            return Broken(r.events + [Error(end.message)]);
          }
          if end.next == |s| || s[end.next] != '}' {
            return Broken(r.events + [Error("unknown format specifier")]);
          }
          return FieldEnd(r.events, end.next + 1);
        }
      } else {
        return Broken(r.events + [Error("missing '}' in format string")]);
      }
    }
  }

  /** Handing over what is pending, in one piece. */
  lemma Handed(out: seq<Event>, pending: string)
    ensures out + Text(pending) + Text("") == out + Text(pending)
  {
  }

  /** One character at a time, as done for strings of less than 32 characters. */
  method ScanShort(h: Handler, s: string) returns (r: Outcome)
    requires Sane(h)
    ensures r == Scan(h, s, 0, [], "")
  {
    var begin, p := 0, 0;
    var out: seq<Event> := [];
    while p != |s|
      invariant 0 <= begin <= p <= |s|
      invariant Scan(h, s, 0, [], "") == Scan(h, s, p, out, s[begin..p])
    {
      var c := s[p];
      p := p + 1;
      if c == '{' {
        out := out + Text(s[begin..p - 1]);
        var f := ParseReplacementField(h, s, p - 1, out);
        if f.Broken? {
          return Stopped(f.events);
        }
        out, begin, p := f.events, f.next, f.next;
        assert s[begin..p] == "";
      } else if c == '}' {
        if p == |s| || s[p] != '}' {
          return Stopped(out + [Error("unmatched '}' in format string")]);
        }
        assert s[begin..p] == s[begin..p - 1] + "}";
        out := out + Text(s[begin..p]);
        p := p + 1;
        begin := p;
        assert s[begin..p] == "";
      } else {
        assert s[begin..p] == s[begin..p - 1] + [c];
      }
    }
    assert s[begin..p] == s[begin..];
    return Finished(out + Text(s[begin..]));
  }

  /** The first place of c from first on, or last. */
  method Find(s: string, first: nat, last: nat, c: char) returns (found: bool, p: nat)
    requires first <= last <= |s|
    ensures first <= p <= last && (found <==> p < last) && (found ==> s[p] == c)
    ensures forall i :: first <= i < p ==> s[i] != c
  {
    p := first;
    while p < last && s[p] != c
      invariant first <= p <= last && forall i :: first <= i < p ==> s[i] != c
    {
      p := p + 1;
    }
    found := p < last;
  }

  ghost predicate NoOpening(s: string, i: nat, j: nat)
    requires i <= j <= |s|
  {
    forall k :: i <= k < j ==> s[k] != '{'
  }

  ghost predicate NoClosing(s: string, i: nat, j: nat)
    requires i <= j <= |s|
  {
    forall k :: i <= k < j ==> s[k] != '}'
  }

  /** Plain characters only become pending. */
  lemma {:induction false} ScanPlain(h: Handler, s: string, i: nat, j: nat, out: seq<Event>, pending: string)
    requires Sane(h) && i <= j <= |s| && NoOpening(s, i, j) && NoClosing(s, i, j)
    ensures Scan(h, s, i, out, pending) == Scan(h, s, j, out, pending + s[i..j])
    decreases j - i
  {
    if i == j {
      assert pending + s[i..j] == pending;
    } else {
      ScanPlain(h, s, i + 1, j, out, pending + [s[i]]);
      assert pending + [s[i]] + s[i + 1..j] == pending + s[i..j];
    }
  }

  /** Pending text is handed over at an opening brace or at the end in any case. */
  lemma HandOverEarly(h: Handler, s: string, to: nat, out: seq<Event>, pending: string)
    requires Sane(h) && to <= |s| && (to == |s| || s[to] == '{')
    ensures Scan(h, s, to, out, pending) == Scan(h, s, to, out + Text(pending), "")
  {
    Handed(out, pending);
  }

  /** The text between two fields: looks for closing braces only. */
  method Write(h: Handler, s: string, from: nat, to: nat, events: seq<Event>) returns (ok: bool, out: seq<Event>)
    requires Sane(h) && from <= to <= |s| && NoOpening(s, from, to) && (to == |s| || s[to] == '{')
    ensures ok ==> Scan(h, s, from, events, "") == Scan(h, s, to, out, "")
    ensures !ok ==> Scan(h, s, from, events, "") == Stopped(out)
  {
    out := events;
    if from == to {
      return true, out;
    }
    var begin := from;
    while true
      invariant from <= begin <= to
      invariant Scan(h, s, from, events, "") == Scan(h, s, begin, out, "")
      decreases |s| - begin
    {
      var found, p := Find(s, begin, to, '}');
      ScanPlain(h, s, begin, p, out, "");
      assert "" + s[begin..p] == s[begin..p];
      if !found {
        HandOverEarly(h, s, to, out, s[begin..to]);
        out := out + Text(s[begin..to]);
        return true, out;
      }
      p := p + 1;
      if p == to || s[p] != '}' {
        return false, out + [Error("unmatched '}' in format string")];
      }
      assert s[begin..p] == s[begin..p - 1] + "}";
      out := out + Text(s[begin..p]);
      begin := p + 1;
    }
  }

  /** From field to field, as done for long strings. */
  method ScanLong(h: Handler, s: string) returns (r: Outcome)
    requires Sane(h)
    ensures r == Scan(h, s, 0, [], "")
  {
    var begin := 0;
    var out: seq<Event> := [];
    while begin != |s|
      invariant 0 <= begin <= |s|
      invariant Scan(h, s, 0, [], "") == Scan(h, s, begin, out, "")
      decreases |s| - begin
    {
      var p := begin;
      var ok: bool;
      if s[begin] != '{' {
        var found;
        found, p := Find(s, begin + 1, |s|, '{');
        if !found {
          ok, out := Write(h, s, begin, |s|, out);
          return if ok then Finished(out) else Stopped(out);
        }
      }
      ok, out := Write(h, s, begin, p, out);
      if !ok {
        return Stopped(out);
      }
      var f := ParseReplacementField(h, s, p, out);
      assert out + Text("") == out;
      if f.Broken? {
        return Stopped(f.events);
      }
      out, begin := f.events, f.next;
    }
    assert out + Text("") == out;
    return Finished(out);
  }

  method ParseFormatString(h: Handler, s: string) returns (r: Outcome)
    requires Sane(h)
    ensures r == Scan(h, s, 0, [], "")
  {
    if |s| < 32 {
      r := ScanShort(h, s);
    } else {
      r := ScanLong(h, s);
    }
  }

  /** Text with every brace doubled. */
  function Escape(t: string): string {
    if t == "" then ""
    else (if t[0] == '{' then "{{" else if t[0] == '}' then "}}" else [t[0]]) + Escape(t[1..])
  }

  lemma {:induction false} EscapedScans(h: Handler, before: string, t: string, out: seq<Event>, pending: string)
    requires Sane(h)
    ensures Scan(h, before + Escape(t), |before|, out, pending) == Finished(out + Text(pending) + Text(t))
    decreases |t|
  {
    var s := before + Escape(t);
    if t == "" {
      assert Text(t) == [];
      assert out + Text(pending) + Text(t) == out + Text(pending);
    } else {
      var rest := t[1..];
      assert t == [t[0]] + rest;
      TextAppend([t[0]], rest);
      if t[0] == '{' {
        assert s == (before + "{{") + Escape(rest);
        EscapedScans(h, before + "{{", rest, out + Text(pending) + [Char('{')], "");
        assert out + Text(pending) + [Char('{')] + Text("") + Text(rest) == out + Text(pending) + Text(t);
      } else if t[0] == '}' {
        assert s == (before + "}}") + Escape(rest);
        TextAppend(pending, "}");
        EscapedScans(h, before + "}}", rest, out + Text(pending + "}"), "");
        assert out + Text(pending + "}") + Text("") + Text(rest) == out + Text(pending) + Text(t);
      } else {
        assert s == (before + [t[0]]) + Escape(rest);
        TextAppend(pending, [t[0]]);
        EscapedScans(h, before + [t[0]], rest, out, pending + [t[0]]);
        assert out + Text(pending + [t[0]]) + Text(rest) == out + Text(pending) + Text(t);
      }
    }
  }

  /** Text with its braces doubled comes out as itself, with no field and no error. */
  lemma EscapeRoundTrip(h: Handler, t: string)
    requires Sane(h)
    ensures Scan(h, Escape(t), 0, [], "") == Finished(Text(t))
  {
    EscapedScans(h, "", t, [], "");
    assert "" + Escape(t) == Escape(t);
    assert [] + Text("") + Text(t) == Text(t);
  }

  /** A scan that finishes has handed over what it had, and then more. */
  lemma {:induction false} ScanGrows(h: Handler, s: string, i: nat, out: seq<Event>, pending: string)
    requires Sane(h) && i <= |s| && Scan(h, s, i, out, pending).Finished?
    ensures out + Text(pending) <= Scan(h, s, i, out, pending).events
    decreases |s| - i
  {
    if i < |s| {
      if s[i] == '{' {
        var f := Field(h, s, i, out + Text(pending));
        ScanGrows(h, s, f.next, f.events, "");
        FieldGrows(h, s, i, out + Text(pending));
        assert f.events + Text("") == f.events;
      } else if s[i] == '}' {
        TextAppend(pending, "}");
        ScanGrows(h, s, i + 2, out + Text(pending + "}"), "");
      } else {
        TextAppend(pending, [s[i]]);
        ScanGrows(h, s, i + 1, out, pending + [s[i]]);
      }
    }
  }

  /** A field adds an event of its own; an escaped brace adds the brace. */
  lemma FieldGrows(h: Handler, s: string, i: nat, out: seq<Event>)
    requires Sane(h) && i < |s| && Field(h, s, i, out).FieldEnd?
    ensures out < Field(h, s, i, out).events
    ensures if i + 1 < |s| && s[i + 1] == '{' then Field(h, s, i, out) == FieldEnd(out + [Char('{')], i + 2)
            else !Field(h, s, i, out).events[|out|].Char?
  {
  }

  /** Only text with its braces doubled scans without a field. */
  lemma {:induction false} PlainScanIsEscaped(h: Handler, s: string, i: nat, out: seq<Event>, pending: string,
                                              t: string)
    requires Sane(h) && i <= |s| && Scan(h, s, i, out, pending) == Finished(out + Text(pending) + Text(t))
    ensures s[i..] == Escape(t)
    decreases |s| - i
  {
    ScanGrows(h, s, i, out, pending);
    var ev := Scan(h, s, i, out, pending).events;
    var n := |out| + |pending|;
    if i == |s| {
      assert |ev| == n;
    } else if s[i] == '{' {
      var f := Field(h, s, i, out + Text(pending));
      FieldGrows(h, s, i, out + Text(pending));
      ScanGrows(h, s, f.next, f.events, "");
      assert f.events + Text("") == f.events;
      assert ev[n] == f.events[n];
      assert t != "" && ev[n] == Char(t[0]);
      FirstEscaped(out + Text(pending), t);
      PlainScanIsEscaped(h, s, i + 2, f.events, "", t[1..]);
      assert s[i..] == "{{" + s[i + 2..];
    } else if s[i] == '}' {
      TextAppend(pending, "}");
      ScanGrows(h, s, i + 2, out + Text(pending + "}"), "");
      assert ev[n] == Char('}');
      assert t != "" && t[0] == '}';
      FirstEscaped(out + Text(pending), t);
      assert out + Text(pending + "}") == out + Text(pending) + [Char('}')];
      PlainScanIsEscaped(h, s, i + 2, out + Text(pending + "}"), "", t[1..]);
      assert s[i..] == "}}" + s[i + 2..];
    } else {
      TextAppend(pending, [s[i]]);
      ScanGrows(h, s, i + 1, out, pending + [s[i]]);
      assert ev[n] == Char(s[i]);
      assert t != "" && t[0] == s[i];
      FirstEscaped(out + Text(pending), t);
      assert out + Text(pending + [s[i]]) == out + Text(pending) + [Char(s[i])];
      PlainScanIsEscaped(h, s, i + 1, out, pending + [s[i]], t[1..]);
      assert s[i..] == [s[i]] + s[i + 1..];
    }
  }

  lemma FirstEscaped(out: seq<Event>, t: string)
    requires t != ""
    ensures out + Text(t) == out + [Char(t[0])] + Text("") + Text(t[1..])
    ensures out + Text(t) == out + [Char(t[0])] + Text(t[1..])
  {
  }

  /** A format string means plain text exactly when it is that text with its braces doubled. */
  lemma PlainIffEscaped(h: Handler, s: string, t: string)
    requires Sane(h)
    ensures Scan(h, s, 0, [], "") == Finished(Text(t)) <==> s == Escape(t)
  {
    if Scan(h, s, 0, [], "") == Finished(Text(t)) {
      assert [] + Text("") + Text(t) == Text(t);
      PlainScanIsEscaped(h, s, 0, [], "", t);
      assert s[0..] == s;
    }
    if s == Escape(t) {
      EscapeRoundTrip(h, t);
    }
  }
}
