/** The tokenizers as the programs run them: a pointer moves along the line, characters are written
    into buffers, each against the functions in `Tokenizers`. */
module TokenizerCode {
  import opened Basics
  import opened Tokenizers

  /** A line as C holds it: no zero byte inside, one at its end. */
  predicate CString(line: string) {
    forall i | 0 <= i < |line| :: line[i] != '\0'
  }

  function CharAt(line: string, p: nat): char
    requires p <= |line|
  {
    if p < |line| then line[p] else '\0'
  }

  lemma Advance(line: string, p: nat)
    requires p < |line|
    ensures line[p..] != "" && line[p..][0] == line[p] && line[p..][1..] == line[p + 1..]
    ensures p + 1 < |line| ==> |line[p..]| > 1 && line[p..][1] == line[p + 1] && line[p..][2..] == line[p + 2..]
    ensures p + 1 == |line| ==> |line[p..]| == 1
  {
  }

  // ---------- parse_line ----------

  /** A character and a new terminator, after the text so far. */
  method Append(out: array<char>, outLen: nat, c: char)
    requires outLen + 1 < out.Length
    modifies out
    ensures out[..outLen + 1] == old(out[..outLen]) + [c] && out[outLen + 1] == '\0'
  {
    out[outLen] := c;
    out[outLen + 1] := '\0';
  }

  lemma QuotedAt(line: string, p: nat, q: char, out: string)
    requires CString(line) && p < |line| && line[p] != q
    ensures Quoted(line[p..], q, out) ==
            if q == '"' && line[p] == '\\' then
              if p + 1 == |line| || (line[p + 1] != '"' && line[p + 1] != '\\') || |out| + 1 >= PATH_MAX then Bad
              else Quoted(line[p + 2..], q, out + [line[p + 1]])
            else if |out| >= PATH_MAX then Bad
            else Quoted(line[p + 1..], q, out + [line[p]])
  {
    Advance(line, p);
  }

  lemma QuotedEnds(line: string, p: nat, q: char, out: string)
    requires CString(line) && q != '\0' && p <= |line|
    ensures CharAt(line, p) == '\0' ==> Quoted(line[p..], q, out) == Bad
    ensures CharAt(line, p) == q ==> Quoted(line[p..], q, out) == Piece(out, line[p + 1..])
  {
    if p < |line| {
      Advance(line, p);
    }
  }

  /** A quoted argument of parse_line, from its opening quote on. */
  method ReadQuoted(line: string, start: nat, out: array<char>) returns (ok: bool, outLen: nat, p: nat)
    requires CString(line) && start < |line| < PATH_MAX == out.Length && line[start] != '\0'
    modifies out
    ensures outLen < PATH_MAX && p <= |line|
    ensures Quoted(line[start + 1..], line[start], "") == if ok then Piece(out[..outLen], line[p..]) else Bad
    ensures ok ==> out[outLen] == '\0'
  {
    hide Quoted;
    var q := line[start];
    outLen, p, ok := 0, start + 1, false;
    out[0] := '\0';
    while CharAt(line, p) != '\0' && q != CharAt(line, p)
      invariant start < p <= |line| && outLen < p - start && out[outLen] == '\0'
      invariant Quoted(line[start + 1..], q, "") == Quoted(line[p..], q, out[..outLen])
      decreases |line| - p
    {
      QuotedAt(line, p, q, out[..outLen]);
      if q == '"' && line[p] == '\\' {
        p := p + 1;
        if CharAt(line, p) == '\0' {
          return;
        }
        var ch := line[p];
        if ch == '"' || ch == '\\' {
          if outLen + 1 >= PATH_MAX {
            return;
          }
          Append(out, outLen, ch);
          outLen := outLen + 1;
          p := p + 1;
        } else {
          return;
        }
      } else {
        if outLen >= PATH_MAX {
          return;
        }
        Append(out, outLen, line[p]);
        outLen := outLen + 1;
        p := p + 1;
      }
    }
    QuotedEnds(line, p, q, out[..outLen]);
    if CharAt(line, p) != q {
      return;
    }
    p := p + 1;
    ok := true;
  }

  /** An argument of parse_line without quotes. */
  method ReadPlain(line: string, start: nat, out: array<char>) returns (ok: bool, outLen: nat, p: nat)
    requires CString(line) && start <= |line| < PATH_MAX == out.Length
    modifies out
    ensures outLen < PATH_MAX && p <= |line|
    ensures Plain(line[start..], "") == if ok then Piece(out[..outLen], line[p..]) else Bad
    ensures ok ==> out[outLen] == '\0'
  {
    outLen, p, ok := 0, start, false;
    out[0] := '\0';
    while CharAt(line, p) != '\0' && !IsSpace(CharAt(line, p))
      invariant start <= p <= |line| && outLen <= p - start && out[outLen] == '\0'
      invariant Plain(line[start..], "") == Plain(line[p..], out[..outLen])
      decreases |line| - p
    {
      Advance(line, p);
      if outLen >= PATH_MAX {
        return;
      }
      Append(out, outLen, line[p]);
      outLen := outLen + 1;
      p := p + 1;
    }
    ok := true;
  }

  /** One argument of parse_line, into a row of argv_buf. The row never overflows: an argument is
      shorter than the line. */
  method ReadArgument(line: string, start: nat, out: array<char>) returns (ok: bool, outLen: nat, p: nat)
    requires CString(line) && start < |line| < PATH_MAX == out.Length && !IsSpace(line[start])
    modifies out
    ensures outLen < PATH_MAX && p <= |line|
    ensures Argument(line[start..]) == if ok then Piece(out[..outLen], line[p..]) else Bad
    ensures ok ==> out[outLen] == '\0'
  {
    hide Quoted, Plain;
    Advance(line, start);
    if line[start] == '\'' || line[start] == '"' {
      ok, outLen, p := ReadQuoted(line, start, out);
    } else {
      ok, outLen, p := ReadPlain(line, start, out);
    }
  }

  method ParseLine(line: string) returns (r: Parsed)
    requires CString(line) && |line| < PATH_MAX
    ensures r == LineArgs(line, [])
  {
    hide Argument;
    var argv: seq<string> := [];
    var p := 0;
    while CharAt(line, p) != '\0'
      invariant p <= |line| && LineArgs(line, []) == LineArgs(line[p..], argv)
      decreases |line| - p
    {
      while IsSpace(CharAt(line, p))
        invariant p <= |line| && LineArgs(line, []) == LineArgs(line[p..], argv)
        decreases |line| - p
      {
        Advance(line, p);
        p := p + 1;
      }
      if CharAt(line, p) == '\0' || CharAt(line, p) == '\n' {
        break;
      }
      Advance(line, p);
      if |argv| >= MAX_ARGS {
        return Rejected;
      }
      var out := new char[PATH_MAX];
      var ok, outLen, next := ReadArgument(line, p, out);
      if !ok {
        return Rejected;
      }
      ArgumentShrinks(line[p..]);
      argv := argv + [out[..outLen]];
      p := next;
    }
    return Args(argv);
  }

  lemma ArgumentShrinks(s: string)
    requires s != "" && !IsSpace(s[0]) && Argument(s).Piece?
    ensures |Argument(s).rest| < |s|
  {
  }

  // ---------- parse_args ----------

  method ParseArgs(line: string) returns (r: Parsed)
    requires CString(line)
    ensures r == Scan(line, "", "", [])
  {
    var argv: seq<string> := [];
    var inQuote, quote := false, '\0';
    var token := new char[PATH_MAX];
    var ti := 0;
    var i := 0;
    while CharAt(line, i) != '\0'
      invariant i <= |line| && ti < PATH_MAX
      invariant Scan(line, "", "", []) == Scan(line[i..], if inQuote then [quote] else "", token[..ti], argv)
      decreases |line| - i
    {
      Advance(line, i);
      var c := line[i];
      ghost var before := token[..ti];
      if inQuote {
        if c == quote {
          inQuote := false;
          i := i + 1;
          continue;
        }
        if c == '\\' && CharAt(line, i + 1) != '\0' {
          if ti >= PATH_MAX - 1 {
            return Rejected;
          }
          i := i + 1;
          token[ti] := line[i];
          ti := ti + 1;
          assert token[..ti] == before + [line[i]];
          i := i + 1;
          continue;
        }
        if ti >= PATH_MAX - 1 {
          return Rejected;
        }
        token[ti] := c;
        ti := ti + 1;
        assert token[..ti] == before + [c];
      } else {
        if IsSpace(c) {
          if ti > 0 {
            token[ti] := '\0';
            assert token[..ti] == before;
            argv := argv + [token[..ti]];
            ti := 0;
            if |argv| >= ORLOV_MAX_ARGS {
              return Args(argv);
            }
          }
          i := i + 1;
          continue;
        }
        if c == '"' || c == '\'' {
          inQuote, quote := true, c;
          i := i + 1;
          continue;
        }
        if ti >= PATH_MAX - 1 {
          return Rejected;
        }
        token[ti] := c;
        ti := ti + 1;
        assert token[..ti] == before + [c];
      }
      i := i + 1;
    }
    assert line[i..] == "";
    if inQuote {
      return Rejected;
    }
    if ti > 0 && |argv| < ORLOV_MAX_ARGS {
      argv := argv + [token[..ti]];
    }
    return Args(argv);
  }

  // ---------- parse_command ----------

  /** What the next character means to both passes. */
  lemma WordAt(line: string, p: nat, inSingle: bool, inDouble: bool)
    requires CString(line) && p < |line|
    ensures var w := Word(line[p..], inSingle, inDouble);
            if !inDouble && line[p] == '\'' then w == Word(line[p + 1..], !inSingle, inDouble)
            else if !inSingle && line[p] == '"' then w == Word(line[p + 1..], inSingle, !inDouble)
            else if !inSingle && !inDouble && IsSeparator(line[p]) then w == ("", line[p..])
            else
              var k := if line[p] == '\\' && !inSingle && p + 1 < |line| then p + 1 else p;
              var r := Word(line[k + 1..], inSingle, inDouble);
              w == ([line[k]] + r.0, r.1)
  {
    Advance(line, p);
  }

  lemma WordEnds(line: string, inSingle: bool, inDouble: bool)
    ensures Word(line[|line|..], inSingle, inDouble) == ("", "")
  {
  }

  /** The first pass: how many characters the argument has. */
  method ArgLength(line: string, start: nat) returns (len: nat)
    requires CString(line) && start <= |line|
    ensures len == |Word(line[start..], false, false).0|
  {
    hide Word;
    var p := start;
    var inSingle, inDouble := false, false;
    len := 0;
    while CharAt(line, p) != '\0'
      invariant start <= p <= |line|
      invariant |Word(line[start..], false, false).0| == len + |Word(line[p..], inSingle, inDouble).0|
      decreases |line| - p
    {
      WordAt(line, p, inSingle, inDouble);
      if !inDouble && line[p] == '\'' {
        inSingle := !inSingle;
        p := p + 1;
        continue;
      }
      if !inSingle && line[p] == '"' {
        inDouble := !inDouble;
        p := p + 1;
        continue;
      }
      if !inSingle && !inDouble && IsSeparator(line[p]) {
        return;
      }
      if line[p] == '\\' && !inSingle && CharAt(line, p + 1) != '\0' {
        p := p + 1;
      }
      len := len + 1;
      p := p + 1;
    }
    WordEnds(line, inSingle, inDouble);
  }

  /** The second pass: exactly as many characters are written, then the terminator in the last cell
      of the allocation, whatever is left open at the line's end. */
  method CopyArgument(line: string, start: nat) returns (arg: array<char>, p: nat)
    requires CString(line) && start <= |line|
    ensures arg.Length == |Word(line[start..], false, false).0| + 1 && arg[arg.Length - 1] == '\0'
    ensures p <= |line| && Word(line[start..], false, false) == (arg[..arg.Length - 1], line[p..])
  {
    hide Word;
    var len := ArgLength(line, start);
    arg := new char[len + 1];
    ghost var whole := Word(line[start..], false, false);
    var i := 0;
    var inSingle, inDouble := false, false;
    p := start;
    assert arg[..0] + whole.0 == whole.0;
    while CharAt(line, p) != '\0'
      invariant start <= p <= |line| && i <= len
      invariant Written(arg[..i], Word(line[p..], inSingle, inDouble), whole)
      decreases |line| - p
    {
      WordAt(line, p, inSingle, inDouble);
      if !inDouble && line[p] == '\'' {
        inSingle := !inSingle;
        p := p + 1;
        continue;
      }
      if !inSingle && line[p] == '"' {
        inDouble := !inDouble;
        p := p + 1;
        continue;
      }
      if !inSingle && !inDouble && IsSeparator(line[p]) {
        break;
      }
      if line[p] == '\\' && !inSingle && CharAt(line, p + 1) != '\0' {
        p := p + 1;
      }
      WrittenMore(arg[..i], line[p], Word(line[p + 1..], inSingle, inDouble), whole);
      ghost var before := arg[..i];
      arg[i] := line[p];
      i := i + 1;
      p := p + 1;
      assert arg[..i] == before + [line[p - 1]];
    }
    if p == |line| {
      WordEnds(line, inSingle, inDouble);
    }
    arg[i] := '\0';
    assert arg[..i] + "" == arg[..i];
  }

  /** `done` has been written, and `w` is still to come. */
  ghost predicate Written(done: string, w: (string, string), whole: (string, string)) {
    whole == (done + w.0, w.1)
  }

  lemma WrittenMore(done: string, c: char, w: (string, string), whole: (string, string))
    requires Written(done, ([c] + w.0, w.1), whole)
    ensures Written(done + [c], w, whole)
  {
    assert done + ([c] + w.0) == done + [c] + w.0;
  }

  datatype Slot = Null | Arg(text: string)

  /** The table is the first `cells` cells of the memory `argv`, and something lies behind it. The null
      after the last argument is written behind the table exactly when the arguments fill it. */
  method ParseCommand(line: string, argv: array<Slot>, cells: nat, maxArgs: nat) returns (argc: nat)
    requires CString(line) && maxArgs <= cells < argv.Length
    modifies argv
    ensures argc == |Words(line, maxArgs)| && argv[argc] == Null
    ensures Filled(argv[..], Words(line, maxArgs), argc)
    ensures argv[cells] == if argc == cells then Null else old(argv[cells])
    ensures Untouched(argv[..], old(argv[..]), cells + 1)
  {
    hide Word, Words;
    ghost var all := Words(line, maxArgs);
    argc := 0;
    var p := 0;
    while CharAt(line, p) != '\0' && argc < maxArgs
      invariant p <= |line| && argc <= maxArgs && argc <= |all|
      invariant all[argc..] == Words(line[p..], maxArgs - argc)
      invariant Filled(argv[..], all, argc) && Untouched(argv[..], old(argv[..]), cells)
      decreases |line| - p
    {
      while CharAt(line, p) != '\0' && IsSeparator(CharAt(line, p))
        invariant p <= |line| && all[argc..] == Words(line[p..], maxArgs - argc)
        invariant Filled(argv[..], all, argc) && Untouched(argv[..], old(argv[..]), cells)
        decreases |line| - p
      {
        SeparatorSkipped(line, p, maxArgs - argc);
        p := p + 1;
      }
      if CharAt(line, p) == '\0' {
        break;
      }
      Advance(line, p);
      var arg, next := CopyArgument(line, p);
      NextWord(line[p..], maxArgs - argc);
      assert all[argc] == all[argc..][0] && all[argc + 1..] == all[argc..][1..];
      ghost var before := argv[..];
      argv[argc] := Arg(arg[..arg.Length - 1]);
      assert argv[..] == before[argc := Arg(all[argc])];
      argc := argc + 1;
      p := next;
      while CharAt(line, p) != '\0' && IsSeparator(CharAt(line, p))
        invariant p <= |line| && all[argc..] == Words(line[p..], maxArgs - argc)
        invariant Filled(argv[..], all, argc) && Untouched(argv[..], old(argv[..]), cells)
        decreases |line| - p
      {
        SeparatorSkipped(line, p, maxArgs - argc);
        p := p + 1;
      }
    }
    NoMoreWords(line[p..], maxArgs - argc);
    ghost var before := argv[..];
    argv[argc] := Null;
    assert argv[..] == before[argc := Null];
  }

  ghost predicate Untouched(argv: seq<Slot>, before: seq<Slot>, n: nat) {
    |argv| == |before| && forall i | n <= i < |argv| :: argv[i] == before[i]
  }

  ghost predicate Filled(argv: seq<Slot>, all: seq<string>, n: nat) {
    n <= |all| && n <= |argv| && forall i | 0 <= i < n :: argv[i] == Arg(all[i])
  }

  lemma SeparatorSkipped(line: string, p: nat, max: nat)
    requires p < |line| && IsSeparator(line[p])
    ensures Words(line[p..], max) == Words(line[p + 1..], max)
  {
    Advance(line, p);
  }

  lemma NoMoreWords(s: string, max: nat)
    requires s == "" || max == 0
    ensures Words(s, max) == []
  {
  }

  lemma NextWord(s: string, max: nat)
    requires s != "" && !IsSeparator(s[0]) && max > 0
    ensures Words(s, max) == [Word(s, false, false).0] + Words(Word(s, false, false).1, max - 1)
    ensures |Word(s, false, false).1| < |s|
  {
  }
}
