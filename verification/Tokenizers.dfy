/** The three projects' command-line tokenizers as functions on the text still to be read, and one
    printer that all three read back. */
module Tokenizers {
  import opened Basics

  const MAX_ARGS := 32

  datatype Parsed = Args(args: seq<string>) | Rejected

  /** isspace in the C locale. */
  predicate IsSpace(c: char) {
    c == ' ' || c == '\t' || c == '\n' || c == '\U{000B}' || c == '\U{000C}' || c == '\r'
  }

  function SkipSpaces(s: string): (r: string)
    ensures |r| <= |s|
  {
    if s != "" && IsSpace(s[0]) then SkipSpaces(s[1..]) else s
  }

  // ---------- parse_line ----------

  datatype Piece = Piece(text: string, rest: string) | Bad

  /** The part of a quoted argument after `out`; only the double quote has escapes, and only two. */
  function Quoted(s: string, q: char, out: string): (r: Piece)
    ensures r.Piece? ==> |r.rest| < |s| && |out| <= |r.text| <= |out| + |s|
    decreases |s|
  {
    if s == "" then Bad
    else if s[0] == q then Piece(out, s[1..])
    else if q == '"' && s[0] == '\\' then
      if |s| < 2 || (s[1] != '"' && s[1] != '\\') || |out| + 1 >= PATH_MAX then Bad
      else Quoted(s[2..], q, out + [s[1]])
    else if |out| >= PATH_MAX then Bad
    else Quoted(s[1..], q, out + [s[0]])
  }

  function Plain(s: string, out: string): (r: Piece)
    ensures r.Piece? ==> |r.rest| <= |s| && |out| <= |r.text| && |r.text| + |r.rest| == |out| + |s|
    decreases |s|
  {
    if s == "" || IsSpace(s[0]) then Piece(out, s)
    else if |out| >= PATH_MAX then Bad
    else Plain(s[1..], out + [s[0]])
  }

  function Argument(s: string): (r: Piece)
    requires s != "" && !IsSpace(s[0])
    ensures r.Piece? ==> |r.rest| < |s| && |r.text| <= |s|
  {
    if s[0] == '\'' || s[0] == '"' then Quoted(s[1..], s[0], "") else Plain(s, "")
  }

  function LineArgs(s: string, args: seq<string>): Parsed
    decreases |s|
  {
    var t := SkipSpaces(s);
    if t == "" then Args(args)
    else if |args| >= MAX_ARGS then Rejected
    else
      SkippedIsNoSpace(s);
      match Argument(t)
      case Bad => Rejected
      case Piece(a, rest) => LineArgs(rest, args + [a])
  }

  lemma {:induction false} SkippedIsNoSpace(s: string)
    ensures SkipSpaces(s) != "" ==> !IsSpace(SkipSpaces(s)[0])
  {
    if s != "" && IsSpace(s[0]) {
      SkippedIsNoSpace(s[1..]);
    }
  }

  // ---------- parse_args ----------

  const ORLOV_MAX_ARGS := 64

  /** The whole scan; `quote` is the quote that is open, if any, and `token` the argument so far. */
  function Scan(s: string, quote: string, token: string, args: seq<string>): Parsed
    requires |quote| <= 1
    decreases |s|
  {
    if s == "" then
      if quote != "" then Rejected
      else if token != "" && |args| < ORLOV_MAX_ARGS then Args(args + [token]) else Args(args)
    else if quote != "" then
      if s[0] == quote[0] then Scan(s[1..], "", token, args)
      else if |token| >= PATH_MAX - 1 then Rejected
      else if s[0] == '\\' && |s| > 1 then Scan(s[2..], quote, token + [s[1]], args)
      else Scan(s[1..], quote, token + [s[0]], args)
    else if IsSpace(s[0]) then
      if token == "" then Scan(s[1..], "", "", args)
      else if |args| + 1 >= ORLOV_MAX_ARGS then Args(args + [token])
      else Scan(s[1..], "", "", args + [token])
    else if s[0] == '"' || s[0] == '\'' then Scan(s[1..], [s[0]], token, args)
    else if |token| >= PATH_MAX - 1 then Rejected
    else Scan(s[1..], "", token + [s[0]], args)
  }

  // ---------- parse_command ----------

  predicate IsSeparator(c: char) { c == ' ' || c == '\t' || c == '\n' }

  function SkipSeparators(s: string): (r: string)
    ensures |r| <= |s|
    ensures r != "" ==> !IsSeparator(r[0])
  {
    if s != "" && IsSeparator(s[0]) then SkipSeparators(s[1..]) else s
  }

  /** The characters of one argument, and what follows it: an unterminated quote or a trailing
      backslash ends with the line. */
  function Word(s: string, inSingle: bool, inDouble: bool): (r: (string, string))
    ensures |r.0| + |r.1| <= |s|
    ensures s != "" && !IsSeparator(s[0]) ==> |r.1| < |s|
    decreases |s|
  {
    if s == "" then ("", "")
    else if !inDouble && s[0] == '\'' then Word(s[1..], !inSingle, inDouble)
    else if !inSingle && s[0] == '"' then Word(s[1..], inSingle, !inDouble)
    else if !inSingle && !inDouble && IsSeparator(s[0]) then ("", s)
    else if s[0] == '\\' && !inSingle && |s| > 1 then
      var r := Word(s[2..], inSingle, inDouble);
      ([s[1]] + r.0, r.1)
    else
      var r := Word(s[1..], inSingle, inDouble);
      ([s[0]] + r.0, r.1)
  }

  function Words(s: string, max: nat): (r: seq<string>)
    ensures |r| <= max
    decreases max
  {
    var t := SkipSeparators(s);
    if max == 0 || t == "" then [] else [Word(t, false, false).0] + Words(Word(t, false, false).1, max - 1)
  }

  // ---------- lines and what they say ----------

  /** A character as it stands, or after a backslash. */
  datatype Mark = Lit(c: char) | Esc(c: char)

  function Written(ms: seq<Mark>): string {
    if ms == [] then "" else (if ms[0].Esc? then ['\\', ms[0].c] else [ms[0].c]) + Written(ms[1..])
  }

  function Meant(ms: seq<Mark>): (r: string)
    ensures |r| == |ms|
  {
    if ms == [] then "" else [ms[0].c] + Meant(ms[1..])
  }

  /** A stretch of an argument: without quotes, or between two of a kind. */
  datatype Stretch = Bare(marks: seq<Mark>) | Between(q: char, marks: seq<Mark>)

  function Spelled(p: Stretch): string {
    match p
    case Bare(ms) => Written(ms)
    case Between(q, ms) => [q] + Written(ms) + [q]
  }

  function AllSpelled(ps: seq<Stretch>): string {
    if ps == [] then "" else Spelled(ps[0]) + AllSpelled(ps[1..])
  }

  function AllMeant(ps: seq<Stretch>): string {
    if ps == [] then "" else Meant(ps[0].marks) + AllMeant(ps[1..])
  }

  /** An argument and the space after it. */
  datatype Item = Item(parts: seq<Stretch>, gap: string)

  function Line(items: seq<Item>): string {
    if items == [] then "" else AllSpelled(items[0].parts) + (items[0].gap + Line(items[1..]))
  }

  function Texts(items: seq<Item>): (r: seq<string>)
    ensures |r| == |items|
  {
    if items == [] then [] else [AllMeant(items[0].parts)] + Texts(items[1..])
  }

  predicate IsQuote(c: char) { c == '"' || c == '\'' }

  predicate Blank(s: string) {
    forall i | 0 <= i < |s| :: IsSpace(s[i])
  }

  lemma MarkStep(ms: seq<Mark>, tail: string)
    requires ms != []
    ensures var s := Written(ms) + tail;
            if ms[0].Esc? then |s| > 1 && s[0] == '\\' && s[1] == ms[0].c && s[2..] == Written(ms[1..]) + tail
            else |s| > 0 && s[0] == ms[0].c && s[1..] == Written(ms[1..]) + tail
  {
    FrontOfTwo(if ms[0].Esc? then ['\\', ms[0].c] else [ms[0].c], Written(ms[1..]), tail);
  }

  lemma FrontOfTwo(front: string, middle: string, tail: string)
    ensures front + middle + tail == front + (middle + tail)
    ensures (front + middle + tail)[|front|..] == middle + tail
  {
    assert front + middle + tail == front + (middle + tail);
  }

  lemma WrittenStep(ms: seq<Mark>, tail: string)
    requires ms != []
    ensures Written(ms) + tail == (if ms[0].Esc? then ['\\', ms[0].c] else [ms[0].c]) + (Written(ms[1..]) + tail)
  {
    FrontOfTwo(if ms[0].Esc? then ['\\', ms[0].c] else [ms[0].c], Written(ms[1..]), tail);
  }

  /** The quote, what is inside, and the rest. */
  lemma QuoteStep(q: char, ms: seq<Mark>, rest: string)
    ensures var s := Spelled(Between(q, ms)) + rest;
            s != "" && s[0] == q && s[1..] == Written(ms) + ([q] + rest)
  {
    FrontOfTwo([q], Written(ms) + [q], rest);
    FrontOfTwo(Written(ms), [q], rest);
    assert Spelled(Between(q, ms)) == [q] + (Written(ms) + [q]);
  }

  lemma MeantStep(ms: seq<Mark>, tail: string)
    requires ms != []
    ensures Meant(ms) + tail == [ms[0].c] + (Meant(ms[1..]) + tail)
  {
    FrontOfTwo([ms[0].c], Meant(ms[1..]), tail);
  }

  lemma MeantOn(token: string, ms: seq<Mark>)
    requires ms != []
    ensures token + [ms[0].c] + Meant(ms[1..]) == token + Meant(ms)
    ensures |Meant(ms)| == |ms|
  {
    assert token + [ms[0].c] + Meant(ms[1..]) == token + ([ms[0].c] + Meant(ms[1..]));
  }

  lemma NoMarks(tail: string)
    ensures Written([]) + tail == tail && Meant([]) + tail == tail
  {
  }

  // ---------- parse_line accepts exactly the well-formed lines ----------

  predicate LineBare(ms: seq<Mark>) {
    ms != [] && !IsQuote(ms[0].c) && forall i | 0 <= i < |ms| :: ms[i].Lit? && !IsSpace(ms[i].c)
  }

  /** Between double quotes the quote and the backslash are written after a backslash, and nothing
      else is; between single quotes nothing is, so there is no way to write the quote. */
  predicate LineBetween(q: char, ms: seq<Mark>) {
    && IsQuote(q)
    && forall i | 0 <= i < |ms| ::
         if q == '"' then ms[i].Esc? <==> (ms[i].c == '"' || ms[i].c == '\\') else ms[i].Lit? && ms[i].c != q
  }

  /** Room for the characters: an escaped one needs one more cell behind it. */
  predicate LineFits(ms: seq<Mark>) {
    |ms| <= PATH_MAX && (|ms| == PATH_MAX ==> ms[|ms| - 1].Lit?)
  }

  predicate LineItem(it: Item, last: bool) {
    && |it.parts| == 1 && Blank(it.gap) && LineFits(it.parts[0].marks)
    && match it.parts[0]
       case Bare(ms) => LineBare(ms) && (it.gap != "" || last)
       case Between(q, ms) => LineBetween(q, ms)
  }

  predicate LineOk(items: seq<Item>) {
    forall i | 0 <= i < |items| :: LineItem(items[i], i == |items| - 1)
  }

  lemma {:induction false} QuotedReads(q: char, ms: seq<Mark>, out: string, rest: string)
    requires LineBetween(q, ms) && |out| + |ms| <= PATH_MAX
    requires ms != [] && |out| + |ms| == PATH_MAX ==> ms[|ms| - 1].Lit?
    ensures Quoted(Written(ms) + ([q] + rest), q, out) == Piece(out + Meant(ms), rest)
    decreases |ms|
  {
    hide Written, Meant;
    var tail := [q] + rest;
    if ms == [] {
      NoMarks(tail);
      NothingMeant(out);
      assert tail[1..] == rest;
    } else {
      MarkStep(ms, tail);
      QuotedReads(q, ms[1..], out + [ms[0].c], rest);
      MeantOn(out, ms);
    }
  }

  lemma {:induction false} PlainReads(ms: seq<Mark>, out: string, rest: string)
    requires forall i | 0 <= i < |ms| :: ms[i].Lit? && !IsSpace(ms[i].c)
    requires |out| + |ms| <= PATH_MAX && (rest != "" ==> IsSpace(rest[0]))
    ensures Plain(Written(ms) + rest, out) == Piece(out + Meant(ms), rest)
    decreases |ms|
  {
    hide Written, Meant;
    if ms == [] {
      NoMarks(rest);
      NothingMeant(out);
    } else {
      MarkStep(ms, rest);
      PlainReads(ms[1..], out + [ms[0].c], rest);
      MeantOn(out, ms);
    }
  }

  lemma {:induction false} GapIsSkipped(gap: string, s: string)
    requires Blank(gap)
    ensures SkipSpaces(gap + s) == SkipSpaces(s)
    decreases |gap|
  {
    if gap == "" {
      assert gap + s == s;
    } else {
      assert (gap + s)[1..] == gap[1..] + s;
      GapIsSkipped(gap[1..], s);
    }
  }

  lemma OneMeant(p: Stretch)
    ensures AllSpelled([p]) == Spelled(p) && AllMeant([p]) == Meant(p.marks)
  {
    assert [p][1..] == [];
    assert AllSpelled([]) == "" && AllMeant([]) == "";
  }

  /** One argument, whatever its form. */
  lemma ArgumentReads(it: Item, last: bool, rest: string)
    requires LineItem(it, last) && (last ==> rest == "")
    ensures var s := AllSpelled(it.parts) + (it.gap + rest);
            s != "" && !IsSpace(s[0]) && Argument(s) == Piece(AllMeant(it.parts), it.gap + rest)
  {
    hide Written, Meant, AllSpelled, AllMeant, Quoted, Plain;
    var p, after := it.parts[0], it.gap + rest;
    assert it.parts == [p];
    OneMeant(p);
    match p {
      case Bare(ms) =>
        hide Blank;
        FirstMark(ms, after);
        AfterBare(it, rest);
        PlainReads(ms, "", after);
      case Between(q, ms) =>
        QuoteStep(q, ms, after);
        QuotedReads(q, ms, "", after);
    }
    assert "" + Meant(p.marks) == Meant(p.marks);
  }

  lemma FirstMark(ms: seq<Mark>, tail: string)
    requires ms != [] && ms[0].Lit?
    ensures Written(ms) + tail != "" && (Written(ms) + tail)[0] == ms[0].c
  {
  }

  lemma AfterBare(it: Item, rest: string)
    requires Blank(it.gap) && (it.gap == "" ==> rest == "")
    ensures it.gap + rest != "" ==> IsSpace((it.gap + rest)[0])
  {
  }

  lemma LineOkTail(items: seq<Item>)
    requires LineOk(items) && items != []
    ensures LineOk(items[1..]) && LineItem(items[0], |items| == 1)
  {
    forall i | 0 <= i < |items[1..]| ensures LineItem(items[1..][i], i == |items[1..]| - 1) {
      assert items[1..][i] == items[i + 1];
    }
  }

  lemma LineEnds(s: string, before: seq<string>)
    requires SkipSpaces(s) == ""
    ensures LineArgs(s, before) == Args(before + Texts([])) && Line([]) == "" && LineOk([])
  {
    assert before + Texts([]) == before;
  }

  lemma {:induction false} LineReads(items: seq<Item>, before: seq<string>)
    requires LineOk(items) && |before| <= MAX_ARGS
    ensures LineArgs(Line(items), before) ==
            if |before| + |items| <= MAX_ARGS then Args(before + Texts(items)) else Rejected
    decreases |items|
  {
    if items == [] {
      LineEnds("", before);
    } else {
      hide *;
      var a := AllMeant(items[0].parts);
      LineOkTail(items);
      LineStep(items);
      FirstArgument(items, before);
      if |before| < MAX_ARGS {
        LineReads(items[1..], before + [a]);
        Longer(before, a, Texts(items[1..]));
      }
    }
  }

  lemma Longer(before: seq<string>, a: string, more: seq<string>)
    ensures before + [a] + more == before + ([a] + more)
  {
  }

  lemma FirstArgument(items: seq<Item>, before: seq<string>)
    requires LineOk(items) && items != []
    ensures LineArgs(Line(items), before) ==
            if |before| < MAX_ARGS then LineArgs(Line(items[1..]), before + [AllMeant(items[0].parts)]) else Rejected
  {
    hide *;
    LineOkTail(items);
    LineStep(items);
    ArgumentReads(items[0], |items| == 1, Line(items[1..]));
    OneArgument(Line(items), before);
    GapBlank(items[0], |items| == 1);
    GapBetween(items[0].gap, Line(items[1..]), before + [AllMeant(items[0].parts)]);
  }

  lemma LineStep(items: seq<Item>)
    requires items != []
    ensures Line(items) == AllSpelled(items[0].parts) + (items[0].gap + Line(items[1..]))
    ensures Texts(items) == [AllMeant(items[0].parts)] + Texts(items[1..]) && |Texts(items)| == |items|
    ensures |items| == 1 ==> Line(items[1..]) == ""
  {
  }

  lemma OneArgument(s: string, before: seq<string>)
    requires s != "" && !IsSpace(s[0]) && Argument(s).Piece?
    ensures LineArgs(s, before) ==
            if |before| < MAX_ARGS then LineArgs(Argument(s).rest, before + [Argument(s).text]) else Rejected
  {
    hide Argument;
    assert SkipSpaces(s) == s;
  }

  lemma GapBetween(gap: string, rest: string, args: seq<string>)
    requires Blank(gap)
    ensures LineArgs(gap + rest, args) == LineArgs(rest, args)
  {
    hide Argument;
    GapIsSkipped(gap, rest);
  }

  lemma GapBlank(it: Item, last: bool)
    requires LineItem(it, last)
    ensures Blank(it.gap)
  {
  }

  lemma {:induction false} QuotedFound(s: string, q: char, out: string) returns (ms: seq<Mark>)
    requires IsQuote(q) && Quoted(s, q, out).Piece? && |out| <= PATH_MAX
    ensures LineBetween(q, ms) && s == Written(ms) + ([q] + Quoted(s, q, out).rest)
    ensures Quoted(s, q, out).text == out + Meant(ms)
    ensures |out| + |ms| <= PATH_MAX && (ms != [] && |out| + |ms| == PATH_MAX ==> ms[|ms| - 1].Lit?)
    decreases |s|
  {
    hide Written, Meant;
    var rest := Quoted(s, q, out).rest;
    if s[0] == q {
      ms := [];
      NoMarks([q] + rest);
      NothingMeant(out);
      assert s == [q] + s[1..];
    } else if q == '"' && s[0] == '\\' {
      var more := QuotedFound(s[2..], q, out + [s[1]]);
      ms := [Esc(s[1])] + more;
      MarksMore(Esc(s[1]), more, [q] + rest);
      assert s == ['\\', s[1]] + s[2..];
    } else {
      var more := QuotedFound(s[1..], q, out + [s[0]]);
      ms := [Lit(s[0])] + more;
      MarksMore(Lit(s[0]), more, [q] + rest);
      assert s == [s[0]] + s[1..];
    }
  }

  lemma NothingMeant(out: string)
    ensures out + Meant([]) == out
  {
  }

  lemma MarksMore(m: Mark, ms: seq<Mark>, tail: string)
    ensures Written([m] + ms) + tail == (if m.Esc? then ['\\', m.c] else [m.c]) + (Written(ms) + tail)
    ensures forall out: string :: out + Meant([m] + ms) == out + [m.c] + Meant(ms)
  {
    assert ([m] + ms)[1..] == ms;
  }

  lemma {:induction false} PlainFound(s: string, out: string) returns (ms: seq<Mark>)
    requires Plain(s, out).Piece? && |out| <= PATH_MAX
    ensures forall i | 0 <= i < |ms| :: ms[i].Lit? && !IsSpace(ms[i].c)
    ensures s == Written(ms) + Plain(s, out).rest && Plain(s, out).text == out + Meant(ms)
    ensures |out| + |ms| <= PATH_MAX
    ensures Plain(s, out).rest != "" ==> IsSpace(Plain(s, out).rest[0])
    ensures s != "" && !IsSpace(s[0]) ==> ms != [] && ms[0].c == s[0]
    decreases |s|
  {
    hide Written, Meant;
    if s == "" || IsSpace(s[0]) {
      ms := [];
      NoMarks(s);
      NothingMeant(out);
    } else {
      var more := PlainFound(s[1..], out + [s[0]]);
      ms := [Lit(s[0])] + more;
      MarksMore(Lit(s[0]), more, Plain(s, out).rest);
      assert s == [s[0]] + s[1..];
    }
  }

  lemma ArgumentFound(s: string) returns (p: Stretch)
    requires s != "" && !IsSpace(s[0]) && Argument(s).Piece?
    ensures s == Spelled(p) + Argument(s).rest && Argument(s).text == Meant(p.marks) && LineFits(p.marks)
    ensures match p
            case Bare(ms) => LineBare(ms) && (Argument(s).rest != "" ==> IsSpace(Argument(s).rest[0]))
            case Between(q, ms) => LineBetween(q, ms)
  {
    hide Written, Meant, Quoted, Plain;
    if IsQuote(s[0]) {
      var ms := QuotedFound(s[1..], s[0], "");
      p := Between(s[0], ms);
      QuoteStep(s[0], ms, Argument(s).rest);
      assert s == [s[0]] + s[1..];
      assert "" + Meant(ms) == Meant(ms);
    } else {
      var ms := PlainFound(s, "");
      p := Bare(ms);
      assert "" + Meant(ms) == Meant(ms);
    }
  }

  lemma {:induction false} LeadFound(s: string) returns (lead: string)
    ensures Blank(lead) && s == lead + SkipSpaces(s) && (s != "" && IsSpace(s[0]) ==> lead != "")
    decreases |s|
  {
    lead := "";
    if s != "" && IsSpace(s[0]) {
      var more := LeadFound(s[1..]);
      lead := [s[0]] + more;
      assert s == [s[0]] + s[1..];
    }
  }

  lemma {:induction false} LineFound(s: string, before: seq<string>) returns (lead: string, items: seq<Item>)
    requires LineArgs(s, before).Args?
    ensures Blank(lead) && LineOk(items) && s == lead + Line(items)
    ensures LineArgs(s, before) == Args(before + Texts(items))
    ensures (s == "" ==> items == []) && (s != "" && IsSpace(s[0]) ==> lead != "")
    decreases |s|
  {
    hide *;
    lead := LeadFound(s);
    var t := SkipSpaces(s);
    items := [];
    if t == "" {
      LineEnds(s, before);
    } else {
      SkippedIsNoSpace(s);
      LineArgsStep(s, before);
      var p := ArgumentFound(t);
      var a, rest := Argument(t).text, Argument(t).rest;
      var gap, more := LineFound(rest, before + [a]);
      items := [Item([p], gap)] + more;
      LineMore(p, gap, more);
      assert rest == "" ==> more == [];
      ItemFound(p, gap, more, rest);
      assert before + [a] + Texts(more) == before + ([a] + Texts(more));
    }
  }

  lemma LineArgsStep(s: string, before: seq<string>)
    requires LineArgs(s, before).Args? && SkipSpaces(s) != "" && !IsSpace(SkipSpaces(s)[0])
    ensures var r := Argument(SkipSpaces(s));
            r.Piece? && |r.rest| < |s| && LineArgs(s, before) == LineArgs(r.rest, before + [r.text])
  {
  }

  lemma LineMore(p: Stretch, gap: string, more: seq<Item>)
    ensures var items := [Item([p], gap)] + more;
            Line(items) == Spelled(p) + (gap + Line(more)) && Texts(items) == [Meant(p.marks)] + Texts(more)
  {
    OneMeant(p);
    assert ([Item([p], gap)] + more)[1..] == more;
  }

  lemma ItemFound(p: Stretch, gap: string, more: seq<Item>, rest: string)
    requires Blank(gap) && LineOk(more) && LineFits(p.marks)
    requires match p
             case Bare(ms) => LineBare(ms) && (rest == "" ==> more == []) && (rest != "" ==> gap != "")
             case Between(q, ms) => LineBetween(q, ms)
    ensures LineOk([Item([p], gap)] + more)
  {
    var items := [Item([p], gap)] + more;
    forall i | 0 <= i < |items| ensures LineItem(items[i], i == |items| - 1) {
      if i > 0 {
        assert items[i] == more[i - 1];
      }
    }
  }

  ghost predicate LineSays(s: string, args: seq<string>) {
    exists lead, items :: Blank(lead) && LineOk(items) && s == lead + Line(items) && args == Texts(items)
  }

  /** parse_line accepts a line with certain arguments if and only if the line is made of these
      arguments, at most 32, bare or quoted, and space between them. */
  lemma ParseLineIff(s: string, args: seq<string>)
    ensures LineArgs(s, []) == Args(args) <==> |args| <= MAX_ARGS && LineSays(s, args)
  {
    hide LineOk, Blank, Line;
    if LineArgs(s, []) == Args(args) {
      var lead, items := LineFound(s, []);
      assert [] + Texts(items) == Texts(items);
      NotTooMany(s, []);
    }
    if LineSays(s, args) {
      var lead, items :| Blank(lead) && LineOk(items) && s == lead + Line(items) && args == Texts(items);
      GapIsSkipped(lead, Line(items));
      LineReads(items, []);
      assert [] + Texts(items) == Texts(items);
      assert LineArgs(s, []) == LineArgs(Line(items), []);
    }
  }

  lemma {:induction false} NotTooMany(s: string, before: seq<string>)
    requires LineArgs(s, before).Args? && |before| <= MAX_ARGS
    ensures |LineArgs(s, before).args| <= MAX_ARGS
    decreases |s|
  {
    hide Argument;
    var t := SkipSpaces(s);
    if t != "" {
      SkippedIsNoSpace(s);
      NotTooMany(Argument(t).rest, before + [Argument(t).text]);
    }
  }

  // ---------- parse_args ----------

  predicate ScanPart(p: Stretch) {
    match p
    case Bare(ms) => ScanPlain(ms)
    case Between(q, ms) => IsQuote(q) && ScanMarks(q, ms)
  }

  predicate ScanPlain(ms: seq<Mark>) {
    forall i | 0 <= i < |ms| :: ms[i].Lit? && !IsSpace(ms[i].c) && !IsQuote(ms[i].c)
  }

  /** Between quotes of either kind, any character may follow a backslash; the quote and the backslash
      itself must. */
  predicate ScanMarks(q: char, ms: seq<Mark>) {
    forall i | 0 <= i < |ms| && ms[i].Lit? :: ms[i].c != q && ms[i].c != '\\'
  }

  predicate ScanItem(it: Item, last: bool) {
    && (forall i | 0 <= i < |it.parts| :: ScanPart(it.parts[i])) && |AllMeant(it.parts)| < PATH_MAX
    && Blank(it.gap) && (it.gap != "" || last)
  }

  predicate ScanOk(items: seq<Item>) {
    forall i | 0 <= i < |items| :: ScanItem(items[i], i == |items| - 1)
  }

  /** One character of an argument. */
  lemma ScanMark(m: Mark, quote: string, more: string, token: string, args: seq<string>)
    requires |quote| <= 1 && (quote == "" ==> m.Lit? && !IsSpace(m.c) && !IsQuote(m.c))
    requires quote != "" && m.Lit? ==> m.c != quote[0] && m.c != '\\'
    requires quote != "" ==> IsQuote(quote[0])
    ensures Scan((if m.Esc? then ['\\', m.c] else [m.c]) + more, quote, token, args) ==
            if |token| < PATH_MAX - 1 then Scan(more, quote, token + [m.c], args) else Rejected
  {
    var s := (if m.Esc? then ['\\', m.c] else [m.c]) + more;
    assert s[if m.Esc? then 2 else 1..] == more;
  }

  lemma {:induction false} ScanBetween(q: char, ms: seq<Mark>, token: string, rest: string, args: seq<string>)
    requires IsQuote(q) && ScanMarks(q, ms) && |token| < PATH_MAX
    ensures Scan(Written(ms) + ([q] + rest), [q], token, args) ==
            if |token| + |ms| < PATH_MAX then Scan(rest, "", token + Meant(ms), args) else Rejected
    decreases |ms|
  {
    var tail := [q] + rest;
    if ms == [] {
      NoMarks(tail);
      assert tail[1..] == rest && token + Meant(ms) == token;
    } else {
      hide Scan, Written, Meant;
      WrittenStep(ms, tail);
      ScanMark(ms[0], [q], Written(ms[1..]) + tail, token, args);
      if |token| < PATH_MAX - 1 {
        ScanBetween(q, ms[1..], token + [ms[0].c], rest, args);
        MeantOn(token, ms);
      }
    }
  }

  lemma {:induction false} ScanBare(ms: seq<Mark>, token: string, rest: string, args: seq<string>)
    requires ScanPlain(ms) && |token| < PATH_MAX
    ensures Scan(Written(ms) + rest, "", token, args) ==
            if |token| + |ms| < PATH_MAX then Scan(rest, "", token + Meant(ms), args) else Rejected
    decreases |ms|
  {
    hide Scan, Written, Meant;
    if ms == [] {
      NoMarks(rest);
      NothingMeant(token);
    } else {
      WrittenStep(ms, rest);
      ScanMark(ms[0], "", Written(ms[1..]) + rest, token, args);
      if |token| < PATH_MAX - 1 {
        ScanBare(ms[1..], token + [ms[0].c], rest, args);
        MeantOn(token, ms);
      }
    }
  }

  lemma ScanStretch(p: Stretch, token: string, rest: string, args: seq<string>)
    requires ScanPart(p) && |token| < PATH_MAX
    ensures Scan(Spelled(p) + rest, "", token, args) ==
            if |token| + |p.marks| < PATH_MAX then Scan(rest, "", token + Meant(p.marks), args) else Rejected
  {
    hide Written, Meant;
    match p {
      case Bare(ms) => ScanBare(ms, token, rest, args);
      case Between(q, ms) =>
        QuoteStep(q, ms, rest);
        ScanBetween(q, ms, token, rest, args);
        ScanOpens(Spelled(p) + rest, token, args);
    }
  }

  lemma ScanOpens(s: string, token: string, args: seq<string>)
    requires s != "" && IsQuote(s[0])
    ensures Scan(s, "", token, args) == Scan(s[1..], [s[0]], token, args)
  {
  }

  lemma {:induction false} ScanStretches(ps: seq<Stretch>, token: string, rest: string, args: seq<string>)
    requires (forall i | 0 <= i < |ps| :: ScanPart(ps[i])) && |token| < PATH_MAX
    ensures Scan(AllSpelled(ps) + rest, "", token, args) ==
            if |token| + |AllMeant(ps)| < PATH_MAX then Scan(rest, "", token + AllMeant(ps), args) else Rejected
    decreases |ps|
  {
    hide Scan, Spelled, Meant, ScanPart;
    if ps == [] {
      assert AllSpelled(ps) + rest == rest && token + AllMeant(ps) == token;
    } else {
      var m, more := Meant(ps[0].marks), AllMeant(ps[1..]);
      assert AllSpelled(ps) + rest == Spelled(ps[0]) + (AllSpelled(ps[1..]) + rest);
      ScanStretch(ps[0], token, AllSpelled(ps[1..]) + rest, args);
      if |token| + |m| < PATH_MAX {
        ScanStretches(ps[1..], token + m, rest, args);
        assert token + m + more == token + AllMeant(ps);
      }
    }
  }

  function Kept(arg: string): seq<string> {
    if arg == "" then [] else [arg]
  }

  function NonEmpty(args: seq<string>): (r: seq<string>)
    ensures |r| <= |args|
  {
    if args == [] then [] else Kept(args[0]) + NonEmpty(args[1..])
  }

  /** The first 64: the scan stops when it has them. */
  function First(args: seq<string>, max: nat): seq<string> {
    if |args| <= max then args else args[..max]
  }

  lemma {:induction false} ScanGap(gap: string, rest: string, args: seq<string>)
    requires Blank(gap)
    ensures Scan(gap + rest, "", "", args) == Scan(rest, "", "", args)
    decreases |gap|
  {
    if gap == "" {
      assert gap + rest == rest;
    } else {
      assert (gap + rest)[1..] == gap[1..] + rest;
      ScanGap(gap[1..], rest, args);
    }
  }

  /** The end of an argument that a space or the end of the line makes. */
  lemma ScanTakes(token: string, gap: string, rest: string, before: seq<string>)
    requires |before| < ORLOV_MAX_ARGS && Blank(gap) && gap != ""
    ensures var now := before + Kept(token);
            Scan(gap + rest, "", token, before) == if |now| < ORLOV_MAX_ARGS then Scan(rest, "", "", now) else Args(now)
  {
    assert (gap + rest)[1..] == gap[1..] + rest;
    ScanGap(gap[1..], rest, before + Kept(token));
    assert before + [] == before;
  }

  lemma ScanEnds(token: string, before: seq<string>)
    requires |before| < ORLOV_MAX_ARGS
    ensures Scan("", "", token, before) == Args(before + Kept(token))
  {
  }

  lemma ScanOne(it: Item, last: bool, rest: string, before: seq<string>)
    requires ScanItem(it, last) && (last ==> rest == "") && |before| < ORLOV_MAX_ARGS
    ensures var now := before + Kept(AllMeant(it.parts));
            Scan(AllSpelled(it.parts) + (it.gap + rest), "", "", before) ==
            if |now| < ORLOV_MAX_ARGS then Scan(rest, "", "", now) else Args(now)
  {
    hide Scan, AllSpelled, AllMeant, ScanPart, Blank;
    ScanStretches(it.parts, "", it.gap + rest, before);
    assert "" + AllMeant(it.parts) == AllMeant(it.parts);
    if it.gap == "" {
      assert it.gap + rest == "";
      var now := before + Kept(AllMeant(it.parts));
      ScanEnds(AllMeant(it.parts), before);
      if |now| < ORLOV_MAX_ARGS {
        ScanEnds("", now);
        assert now + Kept("") == now;
      }
    } else {
      ScanTakes(AllMeant(it.parts), it.gap, rest, before);
    }
  }

  lemma ScanOkTail(items: seq<Item>)
    requires ScanOk(items) && items != []
    ensures ScanOk(items[1..]) && ScanItem(items[0], |items| == 1)
  {
    forall i | 0 <= i < |items[1..]| ensures ScanItem(items[1..][i], i == |items[1..]| - 1) {
      assert items[1..][i] == items[i + 1];
    }
  }

  lemma FirstOfMore(before: seq<string>, one: seq<string>, more: seq<string>, max: nat)
    requires |before + one| >= max && |before| < max && |one| <= 1
    ensures First(before + (one + more), max) == before + one
  {
    assert (before + (one + more))[..max] == before + one;
  }

  lemma {:induction false} ScanReads(items: seq<Item>, before: seq<string>)
    requires ScanOk(items) && |before| < ORLOV_MAX_ARGS
    ensures Scan(Line(items), "", "", before) == Args(First(before + NonEmpty(Texts(items)), ORLOV_MAX_ARGS))
    decreases |items|
  {
    hide Scan, ScanItem, AllSpelled, AllMeant, Kept, First;
    if items == [] {
      ScanNothing(before);
    } else {
      var a, more := AllMeant(items[0].parts), NonEmpty(Texts(items[1..]));
      var now := before + Kept(a);
      ScanOkTail(items);
      ScanOne(items[0], |items| == 1, Line(items[1..]), before);
      KeptOne(a);
      assert NonEmpty(Texts(items)) == Kept(a) + more;
      if |now| < ORLOV_MAX_ARGS {
        ScanReads(items[1..], now);
        assert now + more == before + (Kept(a) + more);
      } else {
        FirstOfMore(before, Kept(a), more, ORLOV_MAX_ARGS);
      }
    }
  }

  lemma KeptOne(a: string)
    ensures |Kept(a)| <= 1
  {
  }

  lemma ScanNothing(before: seq<string>)
    requires |before| < ORLOV_MAX_ARGS
    ensures Scan("", "", "", before) == Args(First(before + NonEmpty([]), ORLOV_MAX_ARGS))
  {
    assert before + NonEmpty([]) == before;
  }

  /** parse_args reads bare and quoted stretches, joined as they come: what it makes of a line of
      arguments are those that are not empty, the first 64 of them. */
  lemma ParseArgsReads(lead: string, items: seq<Item>)
    requires Blank(lead) && ScanOk(items)
    ensures Scan(lead + Line(items), "", "", []) == Args(First(NonEmpty(Texts(items)), ORLOV_MAX_ARGS))
  {
    hide Scan, ScanOk, First;
    ScanGap(lead, Line(items), []);
    ScanReads(items, []);
    assert [] + NonEmpty(Texts(items)) == NonEmpty(Texts(items));
  }

  lemma {:induction false} NonEmptyIsAllIff(args: seq<string>)
    ensures NonEmpty(args) == args <==> forall i | 0 <= i < |args| :: args[i] != ""
  {
    if args != [] {
      NonEmptyIsAllIff(args[1..]);
      assert args == [args[0]] + args[1..];
      if args[0] != "" {
        assert NonEmpty(args)[1..] == NonEmpty(args[1..]);
        if forall i | 0 <= i < |args[1..]| :: args[1..][i] != "" {
          assert forall i | 1 <= i < |args| :: args[i] == args[1..][i - 1];
        } else {
          var i :| 0 <= i < |args[1..]| && args[1..][i] == "";
          assert args[i + 1] == "";
        }
      }
    }
  }

  /** So an empty argument, quoted, is lost: up to 64 arguments are all read exactly when there is
      none. */
  lemma ParseArgsReadsBackIff(lead: string, items: seq<Item>)
    requires Blank(lead) && ScanOk(items) && |items| <= ORLOV_MAX_ARGS
    ensures Scan(lead + Line(items), "", "", []) == Args(Texts(items)) <==>
            forall i | 0 <= i < |items| :: Texts(items)[i] != ""
  {
    hide Scan, ScanOk;
    ParseArgsReads(lead, items);
    NonEmptyIsAllIff(Texts(items));
  }

  lemma {:induction false} ScanOpen(q: char, ms: seq<Mark>, tail: string, token: string, args: seq<string>)
    requires IsQuote(q) && ScanMarks(q, ms) && tail in {"", "\\"}
    ensures Scan(Written(ms) + tail, [q], token, args) == Rejected
    decreases |ms|
  {
    if ms == [] {
      NoMarks(tail);
      if tail == "\\" {
        assert tail[1..] == "";
      }
    } else {
      hide Scan;
      WrittenStep(ms, tail);
      ScanMark(ms[0], [q], Written(ms[1..]) + tail, token, args);
      ScanOpen(q, ms[1..], tail, token + [ms[0].c], args);
    }
  }

  /** Arguments and what comes after them. */
  function LineThen(items: seq<Item>, rest: string): string {
    if items == [] then rest else AllSpelled(items[0].parts) + (items[0].gap + LineThen(items[1..], rest))
  }

  /** A quote that is not closed is an error, if fewer than 64 arguments come before it. */
  lemma {:induction false} ParseArgsRejects(items: seq<Item>, ps: seq<Stretch>, q: char, ms: seq<Mark>, tail: string, before: seq<string>)
    requires (forall i | 0 <= i < |items| :: ScanItem(items[i], false)) && (forall i | 0 <= i < |ps| :: ScanPart(ps[i]))
    requires IsQuote(q) && ScanMarks(q, ms) && tail in {"", "\\"}
    requires |before| + |NonEmpty(Texts(items))| < ORLOV_MAX_ARGS
    ensures Scan(LineThen(items, AllSpelled(ps) + ([q] + (Written(ms) + tail))), "", "", before) == Rejected
    decreases |items|
  {
    hide Scan, ScanItem, ScanPart, AllSpelled, AllMeant, Kept, Written;
    if items == [] {
      var open := [q] + (Written(ms) + tail);
      assert open[1..] == Written(ms) + tail;
      ScanStretches(ps, "", open, before);
      ScanOpens(open, "" + AllMeant(ps), before);
      ScanOpen(q, ms, tail, "" + AllMeant(ps), before);
    } else {
      var a, rest := AllMeant(items[0].parts), LineThen(items[1..], AllSpelled(ps) + ([q] + (Written(ms) + tail)));
      ScanOne(items[0], false, rest, before);
      assert NonEmpty(Texts(items)) == Kept(a) + NonEmpty(Texts(items[1..]));
      ParseArgsRejects(items[1..], ps, q, ms, tail, before + Kept(a));
    }
  }

  /** Whatever comes after the 64th argument, well-formed or not, is not looked at. */
  lemma {:induction false} ParseArgsStops(items: seq<Item>, rest: string, before: seq<string>)
    requires forall i | 0 <= i < |items| :: ScanItem(items[i], false)
    requires |before| < ORLOV_MAX_ARGS <= |before| + |NonEmpty(Texts(items))|
    ensures Scan(LineThen(items, rest), "", "", before) == Args(First(before + NonEmpty(Texts(items)), ORLOV_MAX_ARGS))
    decreases |items|
  {
    hide Scan, ScanItem, AllSpelled, AllMeant, Kept, First;
    var a, more := AllMeant(items[0].parts), NonEmpty(Texts(items[1..]));
    var now := before + Kept(a);
    KeptOne(a);
    ScanOne(items[0], false, LineThen(items[1..], rest), before);
    assert NonEmpty(Texts(items)) == Kept(a) + more;
    if |now| < ORLOV_MAX_ARGS {
      ParseArgsStops(items[1..], rest, now);
      assert now + more == before + (Kept(a) + more);
    } else {
      FirstOfMore(before, Kept(a), more, ORLOV_MAX_ARGS);
    }
  }

  // ---------- parse_command ----------

  predicate WordPart(p: Stretch) {
    match p
    case Bare(ms) => WordPlain(ms)
    case Between(q, ms) => IsQuote(q) && WordMarks(q, ms)
  }

  predicate WordPlain(ms: seq<Mark>) {
    forall i | 0 <= i < |ms| && ms[i].Lit? :: !IsQuote(ms[i].c) && ms[i].c != '\\' && !IsSeparator(ms[i].c)
  }

  /** Any character may follow a backslash, but between single quotes, where a backslash is one. */
  predicate WordMarks(q: char, ms: seq<Mark>) {
    forall i | 0 <= i < |ms| ::
      if q == '"' then ms[i].Lit? ==> ms[i].c != q && ms[i].c != '\\' else ms[i].Lit? && ms[i].c != q
  }

  predicate Separators(s: string) {
    forall i | 0 <= i < |s| :: IsSeparator(s[i])
  }

  predicate WordItem(it: Item, last: bool) {
    && AllSpelled(it.parts) != "" && (forall i | 0 <= i < |it.parts| :: WordPart(it.parts[i]))
    && Separators(it.gap) && (it.gap != "" || last)
  }

  predicate WordOk(items: seq<Item>) {
    forall i | 0 <= i < |items| :: WordItem(items[i], i == |items| - 1)
  }

  /** One character of an argument. */
  lemma WordMark(m: Mark, inSingle: bool, inDouble: bool, more: string)
    requires !(inSingle && inDouble) && (inSingle ==> m.Lit? && m.c != '\'')
    requires inDouble && m.Lit? ==> m.c != '"' && m.c != '\\'
    requires !inSingle && !inDouble && m.Lit? ==> !IsQuote(m.c) && m.c != '\\' && !IsSeparator(m.c)
    ensures var r := Word(more, inSingle, inDouble);
            Word((if m.Esc? then ['\\', m.c] else [m.c]) + more, inSingle, inDouble) == ([m.c] + r.0, r.1)
  {
    var s := (if m.Esc? then ['\\', m.c] else [m.c]) + more;
    assert s[if m.Esc? then 2 else 1..] == more;
  }

  lemma {:induction false} WordBare(ms: seq<Mark>, rest: string)
    requires WordPlain(ms)
    ensures Word(Written(ms) + rest, false, false) == (Meant(ms) + Word(rest, false, false).0, Word(rest, false, false).1)
    decreases |ms|
  {
    hide Word, Written, Meant;
    if ms == [] {
      NoMarks(rest);
      NoMarks(Word(rest, false, false).0);
    } else {
      WrittenStep(ms, rest);
      WordMark(ms[0], false, false, Written(ms[1..]) + rest);
      WordBare(ms[1..], rest);
      MeantStep(ms, Word(rest, false, false).0);
    }
  }

  /** Inside quotes, up to whatever comes after the marks. */
  lemma {:induction false} WordInside(q: char, ms: seq<Mark>, tail: string)
    requires IsQuote(q) && WordMarks(q, ms)
    ensures var r := Word(tail, q == '\'', q == '"');
            Word(Written(ms) + tail, q == '\'', q == '"') == (Meant(ms) + r.0, r.1)
    decreases |ms|
  {
    var r := Word(tail, q == '\'', q == '"');
    if ms == [] {
      NoMarks(tail);
      NoMarks(r.0);
    } else {
      hide Word, Written, Meant;
      WrittenStep(ms, tail);
      WordMark(ms[0], q == '\'', q == '"', Written(ms[1..]) + tail);
      WordInside(q, ms[1..], tail);
      MeantStep(ms, r.0);
    }
  }

  lemma WordStretch(p: Stretch, rest: string)
    requires WordPart(p)
    ensures var r := Word(rest, false, false);
            Word(Spelled(p) + rest, false, false) == (Meant(p.marks) + r.0, r.1)
  {
    hide Written, Meant;
    match p {
      case Bare(ms) => WordBare(ms, rest);
      case Between(q, ms) =>
        QuoteStep(q, ms, rest);
        WordInside(q, ms, [q] + rest);
        assert ([q] + rest)[1..] == rest;
    }
  }

  lemma {:induction false} WordStretches(ps: seq<Stretch>, rest: string)
    requires forall i | 0 <= i < |ps| :: WordPart(ps[i])
    ensures var r := Word(rest, false, false);
            Word(AllSpelled(ps) + rest, false, false) == (AllMeant(ps) + r.0, r.1)
    decreases |ps|
  {
    hide Word, Spelled, Meant, WordPart;
    var r := Word(rest, false, false);
    if ps == [] {
      assert AllSpelled(ps) + rest == rest && AllMeant(ps) + r.0 == r.0;
    } else {
      assert AllSpelled(ps) + rest == Spelled(ps[0]) + (AllSpelled(ps[1..]) + rest);
      WordStretch(ps[0], AllSpelled(ps[1..]) + rest);
      WordStretches(ps[1..], rest);
      assert Meant(ps[0].marks) + (AllMeant(ps[1..]) + r.0) == AllMeant(ps) + r.0;
    }
  }

  lemma {:induction false} SeparatorsSkipped(gap: string, s: string)
    requires Separators(gap)
    ensures SkipSeparators(gap + s) == SkipSeparators(s)
    decreases |gap|
  {
    if gap == "" {
      assert gap + s == s;
    } else {
      assert (gap + s)[1..] == gap[1..] + s;
      SeparatorsSkipped(gap[1..], s);
    }
  }

  lemma {:induction false} StartsNoGap(ps: seq<Stretch>, rest: string)
    requires AllSpelled(ps) != "" && forall i | 0 <= i < |ps| :: WordPart(ps[i])
    ensures AllSpelled(ps) + rest != "" && !IsSeparator((AllSpelled(ps) + rest)[0])
    decreases |ps|
  {
    var p := ps[0];
    if Spelled(p) == "" {
      assert AllSpelled(ps) == AllSpelled(ps[1..]);
      StartsNoGap(ps[1..], rest);
    } else {
      assert (AllSpelled(ps) + rest)[0] == Spelled(p)[0];
      match p {
        case Bare(ms) => assert ms[0].Lit? ==> Spelled(p)[0] == ms[0].c;
        case Between(_, _) =>
      }
    }
  }

  lemma WordOne(it: Item, last: bool, rest: string)
    requires WordItem(it, last) && (last ==> rest == "")
    ensures var s := AllSpelled(it.parts) + (it.gap + rest);
            && SkipSeparators(s) == s && s != ""
            && Word(s, false, false) == (AllMeant(it.parts), it.gap + rest)
  {
    hide AllSpelled, AllMeant, WordPart;
    var after := it.gap + rest;
    StartsNoGap(it.parts, after);
    WordStretches(it.parts, after);
    assert Word(after, false, false) == ("", after);
    assert AllMeant(it.parts) + "" == AllMeant(it.parts);
  }

  lemma WordOkTail(items: seq<Item>)
    requires WordOk(items) && items != []
    ensures WordOk(items[1..]) && WordItem(items[0], |items| == 1)
  {
    forall i | 0 <= i < |items[1..]| ensures WordItem(items[1..][i], i == |items[1..]| - 1) {
      assert items[1..][i] == items[i + 1];
    }
  }

  lemma {:induction false} WordsRead(items: seq<Item>, max: nat)
    requires WordOk(items)
    ensures Words(Line(items), max) == First(Texts(items), max)
    decreases |items|
  {
    hide Word, WordItem, AllSpelled, AllMeant;
    if items != [] && max > 0 {
      var a, rest := AllMeant(items[0].parts), Line(items[1..]);
      WordOkTail(items);
      WordOne(items[0], |items| == 1, rest);
      GapOfSeparators(items[0], |items| == 1);
      SeparatorsSkipped(items[0].gap, rest);
      WordsRead(items[1..], max - 1);
      assert Words(items[0].gap + rest, max - 1) == Words(rest, max - 1);
      assert Texts(items) == [a] + Texts(items[1..]);
      FirstStep(a, Texts(items[1..]), max);
    }
  }

  lemma GapOfSeparators(it: Item, last: bool)
    requires WordItem(it, last)
    ensures Separators(it.gap)
  {
  }

  lemma FirstStep(a: string, more: seq<string>, max: nat)
    requires max > 0
    ensures First([a] + more, max) == [a] + First(more, max - 1)
  {
  }

  /** parse_command reads bare and quoted stretches, joined as they come, the empty arguments included,
      as many as the table has room for. */
  lemma ParseCommandReads(lead: string, items: seq<Item>, max: nat)
    requires Separators(lead) && WordOk(items)
    ensures Words(lead + Line(items), max) == First(Texts(items), max)
  {
    hide Word, WordOk, First;
    SeparatorsSkipped(lead, Line(items));
    WordsRead(items, max);
  }

  /** A quote that is not closed, and a last backslash, are no errors: the argument then goes on to the
      end of the line, the backslash being part of it. */
  lemma WordUnclosed(ps: seq<Stretch>, q: char, ms: seq<Mark>, tail: string)
    requires (forall i | 0 <= i < |ps| :: WordPart(ps[i])) && IsQuote(q) && WordMarks(q, ms) && tail in {"", "\\"}
    ensures Word(AllSpelled(ps) + ([q] + (Written(ms) + tail)), false, false) == (AllMeant(ps) + (Meant(ms) + tail), "")
    ensures Word(AllSpelled(ps) + tail, false, false) == (AllMeant(ps) + tail, "")
  {
    hide AllSpelled, AllMeant, Written, Meant, WordPart;
    var open := [q] + (Written(ms) + tail);
    WordStretches(ps, open);
    WordStretches(ps, tail);
    WordInside(q, ms, tail);
    assert open[1..] == Written(ms) + tail;
    if tail == "\\" {
      assert tail[1..] == "" && [tail[0]] + "" == tail;
    }
  }

  /** Lines of this form fill a table of any size. */
  function Letters(n: nat): (items: seq<Item>)
    ensures |items| == n
  {
    seq(n, _ => Item([Bare([Lit('a')])], " "))
  }

  lemma FullLine(n: nat)
    ensures |Words(Line(Letters(n)), n)| == n
  {
    OneMeant(Bare([Lit('a')]));
    assert [Lit('a')][1..] == [] && Written([]) == "";
    assert AllSpelled([Bare([Lit('a')])]) == "a";
    WordsRead(Letters(n), n);
  }

  // ---------- all three ----------

  /** A line that all three understand says the same to all three. */
  lemma OneLine(lead: string, items: seq<Item>)
    requires Separators(lead) && LineOk(items) && ScanOk(items) && WordOk(items)
    requires |items| <= MAX_ARGS && forall i | 0 <= i < |items| :: Texts(items)[i] != ""
    ensures LineArgs(lead + Line(items), []) == Args(Texts(items))
    ensures Scan(lead + Line(items), "", "", []) == Args(Texts(items))
    ensures Words(lead + Line(items), ORLOV_MAX_ARGS) == Texts(items)
  {
    hide LineOk, ScanOk, WordOk, Scan, Word, Line;
    assert Blank(lead);
    ParseLineIff(lead + Line(items), Texts(items));
    ParseArgsReadsBackIff(lead, items);
    ParseCommandReads(lead, items, ORLOV_MAX_ARGS);
  }

  function EscapedMarks(a: string): (ms: seq<Mark>)
    ensures |ms| == |a|
  {
    seq(|a|, i requires 0 <= i < |a| => if a[i] == '"' || a[i] == '\\' then Esc(a[i]) else Lit(a[i]))
  }

  lemma {:induction false} EscapedMeant(a: string)
    ensures Meant(EscapedMarks(a)) == a
    decreases |a|
  {
    if a != "" {
      assert EscapedMarks(a)[1..] == EscapedMarks(a[1..]);
      EscapedMeant(a[1..]);
    }
  }

  /** Every text can be written so that all three read it: between double quotes, with a backslash before
      each quote and backslash. */
  lemma AnyArgument(a: string, gap: string) returns (it: Item)
    requires |a| < PATH_MAX && gap != "" && Separators(gap)
    ensures LineItem(it, false) && ScanItem(it, false) && WordItem(it, false) && AllMeant(it.parts) == a && it.gap == gap
  {
    var p := Between('"', EscapedMarks(a));
    it := Item([p], gap);
    OneMeant(p);
    EscapedMeant(a);
  }
}
