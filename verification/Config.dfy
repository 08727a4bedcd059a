/** The line-oriented configuration parser and the helpers that read routes, emits and
    window specifications out of it. */
module Config {
  import opened Bits

  // ---- trimming ----

  predicate Blank(c: char) {
    c == ' ' || c == '\t' || c == '\r' || c == '\n'
  }

  ghost predicate AllBlank(s: string) {
    forall i :: 0 <= i < |s| ==> Blank(s[i])
  }

  /** Starts and ends with something other than a blank, or is empty. */
  predicate Tight(s: string) {
    s == [] || (!Blank(s[0]) && !Blank(s[|s| - 1]))
  }

  function TrimLeft(s: string): string {
    if s != [] && Blank(s[0]) then TrimLeft(s[1..]) else s
  }

  function TrimRight(s: string): string {
    if s != [] && Blank(s[|s| - 1]) then TrimRight(s[..|s| - 1]) else s
  }

  function Trim(s: string): string {
    TrimRight(TrimLeft(s))
  }

  lemma {:induction false} LeftUnique(p: string, s: string)
    requires AllBlank(p) && (s == [] || !Blank(s[0]))
    ensures TrimLeft(p + s) == s
  {
    if p == [] {
      assert p + s == s;
    } else {
      assert (p + s)[1..] == p[1..] + s;
      LeftUnique(p[1..], s);
    }
  }

  lemma {:induction false} RightUnique(s: string, q: string)
    requires AllBlank(q) && (s == [] || !Blank(s[|s| - 1]))
    ensures TrimRight(s + q) == s
  {
    if q == [] {
      assert s + q == s;
    } else {
      assert (s + q)[..|s + q| - 1] == s + q[..|q| - 1];
      RightUnique(s, q[..|q| - 1]);
    }
  }

  /** Whatever blanks surround a tight text, trimming recovers exactly that text. */
  lemma TrimUnique(p: string, t: string, q: string)
    requires AllBlank(p) && Tight(t) && AllBlank(q)
    ensures Trim(p + t + q) == t
  {
    if t == [] {
      assert p + t + q == p + q == (p + q) + [];
      LeftUnique(p + q, []);
    } else {
      assert p + t + q == p + (t + q);
      LeftUnique(p, t + q);
      RightUnique(t, q);
    }
  }

  lemma {:induction false} LeftSplit(s: string) returns (p: string)
    ensures AllBlank(p) && s == p + TrimLeft(s) && (TrimLeft(s) == [] || !Blank(TrimLeft(s)[0]))
  {
    p := [];
    if s != [] && Blank(s[0]) {
      var r := LeftSplit(s[1..]);
      p := [s[0]] + r;
      assert s == [s[0]] + s[1..];
    }
  }

  lemma {:induction false} RightSplit(s: string) returns (q: string)
    ensures AllBlank(q) && s == TrimRight(s) + q && (TrimRight(s) == [] || !Blank(TrimRight(s)[|TrimRight(s)| - 1]))
  {
    q := [];
    if s != [] && Blank(s[|s| - 1]) {
      var r := RightSplit(s[..|s| - 1]);
      q := r + [s[|s| - 1]];
      assert s == s[..|s| - 1] + [s[|s| - 1]];
    }
  }

  /** And every text is its trimmed form between blanks. */
  lemma TrimSplit(s: string) returns (p: string, q: string)
    ensures AllBlank(p) && AllBlank(q) && Tight(Trim(s)) && s == p + Trim(s) + q
  {
    p := LeftSplit(s);
    q := RightSplit(TrimLeft(s));
    var t := Trim(s);
    if t != [] {
      assert TrimLeft(s)[0] == t[0];
    }
  }

  ghost predicate Spaces(s: string) {
    forall i :: 0 <= i < |s| ==> s[i] in " \t\r\n"
  }

  lemma BlanksAreSpaces(s: string)
    ensures AllBlank(s) <==> Spaces(s)
  {
    assert forall c: char :: c in " \t\r\n" <==> c == ' ' || c == '\t' || c == '\r' || c == '\n';
  }

  /** What is left after trimming: all of the text but the spaces, tabs, carriage returns and
      newlines at its ends. */
  lemma TrimExactly(p: string, t: string, q: string)
    requires Spaces(p) && Spaces(q)
    ensures Trim(p + t + q) == t <==> t == [] || (t[0] !in " \t\r\n" && t[|t| - 1] !in " \t\r\n")
  {
    BlanksAreSpaces(p);
    BlanksAreSpaces(q);
    var text := p + t + q;
    var a, b := TrimSplit(text);
    hide Trim, Spaces;
    if Tight(t) {
      TrimUnique(p, t, q);
    }
  }

  lemma TrimIgnoresBlanks(a: string, s: string, b: string)
    requires AllBlank(a) && AllBlank(b)
    ensures Trim(a + s + b) == Trim(s)
  {
    var p, q := TrimSplit(s);
    assert a + s + b == (a + p) + Trim(s) + (q + b);
    TrimUnique(a + p, Trim(s), q + b);
  }

  // ---- splitting ----

  /** The first position of `c`, or the length. */
  function Index(s: string, c: char): (i: nat)
    ensures i <= |s| && (i < |s| ==> s[i] == c) && c !in s[..i]
  {
    if s == [] || s[0] == c then 0
    else
      assert s[..1 + Index(s[1..], c)] == [s[0]] + s[1..][..Index(s[1..], c)];
      1 + Index(s[1..], c)
  }

  lemma {:induction false} IndexUnique(a: string, c: char, b: string)
    requires c !in a
    ensures Index(a + [c] + b, c) == |a|
  {
    if a != [] {
      assert (a + [c] + b)[1..] == a[1..] + [c] + b;
      IndexUnique(a[1..], c, b);
    }
  }

  lemma IndexParts(a: string, c: char, b: string)
    requires c !in a
    ensures var t := a + [c] + b; Index(t, c) == |a| && t[..|a|] == a && t[|a| + 1..] == b
  {
    IndexUnique(a, c, b);
  }

  /** What repeated `getline(stream, item, c)` yields: no segment follows a final `c`. */
  function Segments(s: string, c: char): seq<string>
    decreases |s|
  {
    if s == [] then []
    else
      var i := Index(s, c);
      [s[..i]] + if i == |s| then [] else Segments(s[i + 1..], c)
  }

  function Terminated(ls: seq<string>, c: char): string {
    if ls == [] then [] else ls[0] + [c] + Terminated(ls[1..], c)
  }

  ghost predicate Free(ls: seq<string>, c: char) {
    forall i :: 0 <= i < |ls| ==> c !in ls[i]
  }

  lemma SegmentsCons(a: string, c: char, b: string)
    requires c !in a
    ensures Segments(a + [c] + b, c) == [a] + Segments(b, c)
  {
    var s := a + [c] + b;
    IndexUnique(a, c, b);
    assert s[..|a|] == a && s[|a| + 1..] == b;
  }

  lemma SegmentsLast(s: string, c: char)
    requires s != [] && c !in s
    ensures Segments(s, c) == [s]
  {
    assert s[..|s|] == s;
  }

  /** Lines written with terminators are read back. */
  lemma {:induction false} SegmentsTerminated(ls: seq<string>, c: char)
    requires Free(ls, c)
    ensures Segments(Terminated(ls, c), c) == ls
  {
    if ls != [] {
      SegmentsCons(ls[0], c, Terminated(ls[1..], c));
      SegmentsTerminated(ls[1..], c);
    }
  }

  /** And a text is its lines, but for a terminator on the last one. */
  lemma {:induction false} TerminatedSegments(s: string, c: char)
    ensures Free(Segments(s, c), c)
    ensures var t := Terminated(Segments(s, c), c); t == s || t == s + [c]
    decreases |s|
  {
    if s != [] {
      var i := Index(s, c);
      if i == |s| {
        assert s[..i] == s;
        SegmentsLast(s, c);
        assert Terminated([s], c) == s + [c];
      } else {
        var first, rest := s[..i], s[i + 1..];
        assert s == first + [c] + rest;
        TerminatedSegments(rest, c);
        SegmentsCons(first, c, rest);
        hide Segments, Index;
        var ls := Segments(rest, c);
        assert ([first] + ls)[1..] == ls;
        assert first + [c] + (rest + [c]) == s + [c];
      }
    }
  }

  /** `std::getline`: the next segment and the rest of the stream. */
  method GetLine(s: string, c: char) returns (item: string, rest: string)
    requires s != []
    ensures Segments(s, c) == [item] + Segments(rest, c) && |rest| < |s|
  {
    var i := 0;
    while i < |s| && s[i] != c
      invariant i <= |s| && c !in s[..i]
    {
      i := i + 1;
    }
    if i < |s| {
      assert s == s[..i] + [c] + s[i + 1..];
      SegmentsCons(s[..i], c, s[i + 1..]);
      return s[..i], s[i + 1..];
    }
    assert s[..i] == s;
    SegmentsLast(s, c);
    return s, [];
  }

  // ---- the parser ----

  datatype Section = Section(ty: string, kv: map<string, string>, multi: map<string, seq<string>>)

  /** The thrown messages, with the line number each one prints. */
  datatype Error =
    | CannotOpen
    | NoSection(line: nat)
    | NoEquals(line: nat, text: string)
    | DuplicateKey(line: nat, key: string)

  datatype Result<+T> = Ok(value: T) | Err(error: Error)

  /** Keys that may appear more than once in a section. */
  predicate IsMulti(key: string) {
    key == "window" || key == "endpoint" || key == "emits"
  }

  function Many(sec: Section, key: string): seq<string> {
    if key in sec.multi then sec.multi[key] else []
  }

  /** A section with one more entry. */
  function Added(sec: Section, key: string, val: string): Section {
    if IsMulti(key) then sec.(multi := sec.multi[key := Many(sec, key) + [val]])
    else sec.(kv := sec.kv[key := val])
  }

  predicate Skipped(line: string) {
    line == [] || line[0] == '#' || line[0] == ';'
  }

  predicate IsHeader(line: string) {
    line != [] && line[0] == '[' && line[|line| - 1] == ']'
  }

  /** One trimmed line that is neither skipped nor a header. */
  function Entered(cfg: seq<Section>, line: string, lineno: nat): Result<seq<Section>> {
    if cfg == [] then Err(NoSection(lineno))
    else
      var eq := Index(line, '=');
      if eq == |line| then Err(NoEquals(lineno, line))
      else
        var key, val := Trim(line[..eq]), Trim(line[eq + 1..]);
        var sec := cfg[|cfg| - 1];
        if !IsMulti(key) && key in sec.kv then Err(DuplicateKey(lineno, key))
        else Ok(cfg[|cfg| - 1 := Added(sec, key, val)])
  }

  function Applied(cfg: seq<Section>, raw: string, lineno: nat): Result<seq<Section>> {
    var line := Trim(raw);
    if Skipped(line) then Ok(cfg)
    else if IsHeader(line) then Ok(cfg + [Section(Trim(line[1..|line| - 1]), map[], map[])])
    else Entered(cfg, line, lineno)
  }

  /** The remaining lines, after `lineno` have been read. */
  function ParseLines(cfg: seq<Section>, lines: seq<string>, lineno: nat): Result<seq<Section>>
    decreases |lines|
  {
    if lines == [] then Ok(cfg)
    else
      match Applied(cfg, lines[0], lineno + 1)
      case Err(e) => Err(e)
      case Ok(next) => ParseLines(next, lines[1..], lineno + 1)
  }

  lemma ParseCons(cfg: seq<Section>, line: string, rest: seq<string>, lineno: nat)
    ensures ParseLines(cfg, [line] + rest, lineno) ==
              match Applied(cfg, line, lineno + 1) case Err(e) => Err(e) case Ok(c) => ParseLines(c, rest, lineno + 1)
    ensures ParseLines(cfg, [], lineno) == Ok(cfg) && Segments([], '\n') == []
  {
    assert ([line] + rest)[1..] == rest;
  }

  /** The loop body of `parse`. */
  method ReadLine(cfg: seq<Section>, raw: string, lineno: nat) returns (r: Result<seq<Section>>)
    ensures r == Applied(cfg, raw, lineno)
  {
    var line := Trim(raw);
    if line == [] || line[0] == '#' || line[0] == ';' {
      return Ok(cfg);
    }
    if line[0] == '[' && line[|line| - 1] == ']' {
      return Ok(cfg + [Section(Trim(line[1..|line| - 1]), map[], map[])]);
    }
    r := Enter(cfg, line, lineno);
  }

  /** Its part after the header test. */
  method Enter(cfg: seq<Section>, line: string, lineno: nat) returns (r: Result<seq<Section>>)
    ensures r == Entered(cfg, line, lineno)
  {
    if cfg == [] {
      return Err(NoSection(lineno));
    }
    var eq := Index(line, '=');
    if eq == |line| {
      return Err(NoEquals(lineno, line));
    }
    var key, val := Trim(line[..eq]), Trim(line[eq + 1..]);
    var current := cfg[|cfg| - 1];
    if IsMulti(key) {
      var values := Many(current, key) + [val];
      current := current.(multi := current.multi[key := values]);
    } else {
      if key in current.kv {
        return Err(DuplicateKey(lineno, key));
      }
      current := current.(kv := current.kv[key := val]);
    }
    return Ok(cfg[|cfg| - 1 := current]);
  }

  /** `parse`, on the contents of the file if it could be opened. */
  method Parse(file: Option<string>) returns (r: Result<seq<Section>>)
    ensures r == match file case None => Err(CannotOpen) case Some(text) => ParseLines([], Segments(text, '\n'), 0)
  {
    if file.None? {
      return Err(CannotOpen);
    }
    hide Segments, Index, Applied, ParseLines;
    var rest := file.value;
    var cfg: seq<Section> := [];
    var lineno: nat := 0;
    while rest != []
      invariant ParseLines(cfg, Segments(rest, '\n'), lineno) == ParseLines([], Segments(file.value, '\n'), 0)
      decreases |rest|
    {
      var raw;
      raw, rest := GetLine(rest, '\n');
      ParseCons(cfg, raw, Segments(rest, '\n'), lineno);
      lineno := lineno + 1;
      var next := ReadLine(cfg, raw, lineno);
      if next.Err? {
        return next;
      }
      cfg := next.value;
    }
    ParseCons(cfg, [], [], lineno);
    return Ok(cfg);
  }

  // ---- blanks and comments ----

  ghost predicate Padded(xs: seq<string>, ys: seq<string>) {
    |xs| == |ys| && forall i :: 0 <= i < |xs| ==> PaddedLine(xs[i], ys[i])
  }

  /** `y` is `x` with blanks around it. */
  ghost predicate PaddedLine(x: string, y: string) {
    exists a, b :: AllBlank(a) && AllBlank(b) && y == a + x + b
  }

  /** Padding lines with blanks changes neither the result nor the error. */
  lemma {:induction false} PaddingIsIgnored(cfg: seq<Section>, xs: seq<string>, ys: seq<string>, lineno: nat)
    requires Padded(xs, ys)
    ensures ParseLines(cfg, xs, lineno) == ParseLines(cfg, ys, lineno)
    decreases |xs|
  {
    if xs != [] {
      assert PaddedLine(xs[0], ys[0]);
      var a, b :| AllBlank(a) && AllBlank(b) && ys[0] == a + xs[0] + b;
      TrimIgnoresBlanks(a, xs[0], b);
      var r := Applied(cfg, xs[0], lineno + 1);
      if r.Ok? {
        forall i | 0 <= i < |xs| - 1
          ensures PaddedLine(xs[1..][i], ys[1..][i])
        {
          assert PaddedLine(xs[i + 1], ys[i + 1]);
        }
        PaddingIsIgnored(r.value, xs[1..], ys[1..], lineno + 1);
      }
    }
  }

  function Shifted(e: Error): Error {
    match e
    case CannotOpen => CannotOpen
    case NoSection(n) => NoSection(n + 1)
    case NoEquals(n, text) => NoEquals(n + 1, text)
    case DuplicateKey(n, key) => DuplicateKey(n + 1, key)
  }

  function ShiftedResult(r: Result<seq<Section>>): Result<seq<Section>> {
    if r.Err? then Err(Shifted(r.error)) else r
  }

  lemma {:induction false} NumbersShift(cfg: seq<Section>, lines: seq<string>, lineno: nat)
    ensures ParseLines(cfg, lines, lineno + 1) == ShiftedResult(ParseLines(cfg, lines, lineno))
    decreases |lines|
  {
    if lines != [] {
      var r := Applied(cfg, lines[0], lineno + 1);
      assert Applied(cfg, lines[0], lineno + 2) == ShiftedResult(r);
      if r.Ok? {
        NumbersShift(r.value, lines[1..], lineno + 1);
      }
    }
  }

  lemma {:induction false} ParseConcat(cfg: seq<Section>, a: seq<string>, b: seq<string>, lineno: nat)
    ensures ParseLines(cfg, a + b, lineno) ==
              match ParseLines(cfg, a, lineno) case Err(e) => Err(e) case Ok(c) => ParseLines(c, b, lineno + |a|)
    decreases |a|
  {
    if a == [] {
      assert a + b == b;
    } else {
      assert (a + b)[1..] == a[1..] + b;
      var r := Applied(cfg, a[0], lineno + 1);
      if r.Ok? {
        ParseConcat(r.value, a[1..], b, lineno + 1);
      }
    }
  }

  /** A blank or comment line anywhere leaves the configuration as it is; an error above
      it is unchanged and one below it is the same error one line further down. */
  lemma InsertedLineIsIgnored(a: seq<string>, comment: string, b: seq<string>)
    requires Skipped(Trim(comment))
    ensures var before := ParseLines([], a, 0);
            ParseLines([], a + [comment] + b, 0) ==
              if before.Err? then before else ShiftedResult(ParseLines([], a + b, 0))
  {
    ParseConcat([], a + [comment], b, 0);
    ParseConcat([], a, [comment], 0);
    ParseConcat([], a, b, 0);
    var before := ParseLines([], a, 0);
    if before.Ok? {
      NumbersShift(before.value, b, |a|);
      assert ParseLines(before.value, [comment], |a|) == Ok(before.value);
    }
  }

  // ---- printing ----

  type Entry = (string, string)

  /** What a `key = value` line can carry. */
  predicate Writable(key: string, val: string) {
    && Tight(key) && Tight(val) && '\n' !in key && '\n' !in val && '=' !in key
    && (key != [] ==> key[0] != '#' && key[0] != ';')
    && !(key != [] && key[0] == '[' && val != [] && val[|val| - 1] == ']')
  }

  function Pad(key: string, a: string): string { if key == [] then [] else a }

  /** The trimmed form of a line `a key b = c val d`. */
  function Core(key: string, b: string, c: string, val: string): string {
    key + Pad(key, b) + ['='] + Pad(val, c) + val
  }

  lemma PadTrims(key: string, b: string, c: string, val: string)
    requires Tight(key) && Tight(val) && AllBlank(b) && AllBlank(c)
    ensures Trim(key + Pad(key, b)) == key && Trim(Pad(val, c) + val) == val
  {
    assert [] + key + Pad(key, b) == key + Pad(key, b);
    assert Pad(val, c) + val + [] == Pad(val, c) + val;
    TrimUnique([], key, Pad(key, b));
    TrimUnique(Pad(val, c), val, []);
  }

  lemma CoreIndex(key: string, b: string, c: string, val: string)
    requires Writable(key, val) && AllBlank(b) && AllBlank(c)
    ensures var t := Core(key, b, c, val);
            var eq := Index(t, '=');
            eq < |t| && Trim(t[..eq]) == key && Trim(t[eq + 1..]) == val
  {
    PadTrims(key, b, c, val);
    hide Trim, Index;
    var left, right := key + Pad(key, b), Pad(val, c) + val;
    var t := Core(key, b, c, val);
    assert t == left + ['='] + right;
    IndexParts(left, '=', right);
  }

  lemma CoreIsLine(key: string, b: string, c: string, val: string)
    requires Writable(key, val) && AllBlank(b) && AllBlank(c)
    ensures var t := Core(key, b, c, val); Tight(t) && !Skipped(t) && !IsHeader(t)
  {
    var t := Core(key, b, c, val);
    assert t[0] == if key == [] then '=' else key[0];
    assert t[|t| - 1] == if val == [] then '=' else val[|val| - 1];
  }

  lemma SevenParts(a: string, b: string, c: string, d: string, e: string, f: string, g: string)
    ensures a + b + c + d + e + f + g == (a + b + c) + d + (e + f + g)
  {
  }

  lemma FiveParts(p: string, l: string, e: string, r: string, q: string)
    ensures (p + l) + e + (r + q) == p + (l + e + r) + q
  {
  }

  lemma LeftParts(a: string, key: string, b: string)
    ensures a + key + b == (a + if key == [] then b else []) + (key + Pad(key, b))
  {
    if key == [] {
      assert a + key + b == a + b && key + Pad(key, b) == [];
    } else {
      assert a + [] == a;
    }
  }

  lemma RightParts(c: string, val: string, d: string)
    ensures c + val + d == (Pad(val, c) + val) + ((if val == [] then c else []) + d)
  {
    if val == [] {
      assert c + val + d == c + d && Pad(val, c) + val == [];
    } else {
      assert [] + d == d;
    }
  }

  lemma AroundCore(a: string, key: string, b: string, c: string, val: string, d: string)
    ensures a + key + b + ['='] + c + val + d
            == (a + if key == [] then b else []) + Core(key, b, c, val) + ((if val == [] then c else []) + d)
  {
    var l, r := key + Pad(key, b), Pad(val, c) + val;
    var p, q := a + (if key == [] then b else []), (if val == [] then c else []) + d;
    SevenParts(a, key, b, ['='], c, val, d);
    LeftParts(a, key, b);
    RightParts(c, val, d);
    FiveParts(p, l, ['='], r, q);
    assert Core(key, b, c, val) == l + ['='] + r;
  }

  lemma BlanksAround(a: string, key: string, b: string, c: string, val: string, d: string)
    requires AllBlank(a) && AllBlank(b) && AllBlank(c) && AllBlank(d)
    ensures AllBlank(a + if key == [] then b else []) && AllBlank((if val == [] then c else []) + d)
  {
  }

  /** An entry is read back whatever blanks stand around its key, `=` and value. */
  lemma EntryLine(cfg: seq<Section>, a: string, key: string, b: string, c: string, val: string, d: string, lineno: nat)
    requires Writable(key, val) && AllBlank(a) && AllBlank(b) && AllBlank(c) && AllBlank(d) && cfg != []
    ensures var sec := cfg[|cfg| - 1];
            Applied(cfg, a + key + b + ['='] + c + val + d, lineno) ==
              if !IsMulti(key) && key in sec.kv then Err(DuplicateKey(lineno, key))
              else Ok(cfg[|cfg| - 1 := Added(sec, key, val)])
  {
    hide Trim, Index;
    CoreIsLine(key, b, c, val);
    CoreIndex(key, b, c, val);
    hide Writable, Tight, Skipped, IsHeader, AllBlank;
    var t := Core(key, b, c, val);
    var p, q := a + (if key == [] then b else []), (if val == [] then c else []) + d;
    AroundCore(a, key, b, c, val, d);
    BlanksAround(a, key, b, c, val, d);
    TrimUnique(p, t, q);
  }

  // ---- what each kind of line does, by its text ----

  /** A line of spaces, and one whose first other character is `#` or `;`, change nothing. */
  lemma CommentLine(cfg: seq<Section>, p: string, mark: char, text: string, lineno: nat)
    requires Spaces(p) && mark in "#;"
    ensures Applied(cfg, p, lineno) == Applied(cfg, p + [mark] + text, lineno) == Ok(cfg)
  {
    BlanksAreSpaces(p);
    assert p + [] + [] == p;
    TrimUnique(p, [], []);
    var line := [mark] + text;
    TrimEnds(line);
    hide Trim;
    TrimIgnoresBlanks(p, line, []);
    assert p + line + [] == p + [mark] + text;
  }

  /** A name in brackets begins a section without entries. */
  lemma BracketLine(cfg: seq<Section>, p: string, a: string, ty: string, b: string, q: string, lineno: nat)
    requires Spaces(p) && Spaces(a) && Spaces(b) && Spaces(q) && Tight(ty)
    ensures Applied(cfg, p + "[" + a + ty + b + "]" + q, lineno) == Ok(cfg + [Section(ty, map[], map[])])
  {
    var line := "[" + (a + ty + b) + "]";
    BlanksAreSpaces(p);
    BlanksAreSpaces(a);
    BlanksAreSpaces(b);
    BlanksAreSpaces(q);
    assert p + "[" + a + ty + b + "]" + q == p + line + q;
    TrimUnique(p, line, q);
    assert line[1..|line| - 1] == a + ty + b;
    TrimUnique(a, ty, b);
  }

  /** Any other line needs a section above it and an equals sign. */
  lemma StrayLine(cfg: seq<Section>, p: string, line: string, q: string, lineno: nat)
    requires Spaces(p) && Spaces(q) && line != [] && Tight(line)
    requires line[0] !in "#;" && !(line[0] == '[' && line[|line| - 1] == ']')
    ensures cfg == [] ==> Applied(cfg, p + line + q, lineno) == Err(NoSection(lineno))
    ensures cfg != [] && '=' !in line ==> Applied(cfg, p + line + q, lineno) == Err(NoEquals(lineno, line))
  {
    BlanksAreSpaces(p);
    BlanksAreSpaces(q);
    TrimUnique(p, line, q);
    assert line[0] in line[..1] + line[1..];
  }

  lemma ThreeLines(a: string, b: string, c: string)
    ensures ParseLines([], [a, b, c], 0) ==
              match Applied([], a, 1) case Err(e) => Err(e) case Ok(x) => (
                match Applied(x, b, 2) case Err(e) => Err(e) case Ok(y) => Applied(y, c, 3))
  {
    hide Applied, ParseLines;
    assert [a] + [b, c] == [a, b, c] && [b] + [c] == [b, c] && [c] + [] == [c];
    ParseCons([], a, [b, c], 0);
    if Applied([], a, 1).Ok? {
      var x := Applied([], a, 1).value;
      ParseCons(x, b, [c], 1);
      if Applied(x, b, 2).Ok? {
        var y := Applied(x, b, 2).value;
        ParseCons(y, c, [], 2);
        if Applied(y, c, 3).Ok? {
          ParseCons(Applied(y, c, 3).value, [], [], 3);
        }
      }
    }
  }

  lemma AddedTwice(ty: string, key: string, v: string, w: string)
    ensures var one := Added(Section(ty, map[], map[]), key, v);
            if key in ["window", "endpoint", "emits"]
            then IsMulti(key) && Added(one, key, w) == Section(ty, map[], map[key := [v, w]])
            else !IsMulti(key) && key in one.kv
  {
    var one := Added(Section(ty, map[], map[]), key, v);
    if IsMulti(key) {
      assert Many(one, key) == [] + [v];
      assert Many(one, key) + [w] == [v, w];
      assert one.multi[key := [v, w]] == map[key := [v, w]];
    }
  }

  /** A second line with the same key: kept after the first for `window`, `endpoint` and
      `emits`, an error for every other key. */
  lemma RepeatedKey(ty: string, key: string, v: string, w: string)
    requires WellFormedType(ty) && Writable(key, v) && Writable(key, w)
    ensures ParseLines([], ["[" + ty + "]", key + " = " + v, key + " = " + w], 0) ==
              if key in ["window", "endpoint", "emits"] then Ok([Section(ty, map[], map[key := [v, w]])])
              else Err(DuplicateKey(3, key))
  {
    var head := "[" + ty + "]";
    var none := Section(ty, map[], map[]);
    var one := Added(none, key, v);
    assert [] + "[" + [] + ty + [] + "]" + [] == head;
    BracketLine([], [], [], ty, [], [], 1);
    assert [] + [none] == [none];
    OneEntry([none], key, v, 2);
    OneEntry([one], key, w, 3);
    AddedTwice(ty, key, v, w);
    ThreeLines(head, key + " = " + v, key + " = " + w);
    hide Applied, ParseLines, Writable, WellFormedType, Added, IsMulti;
  }

  lemma OneEntry(cfg: seq<Section>, key: string, val: string, lineno: nat)
    requires Writable(key, val) && |cfg| == 1
    ensures Applied(cfg, key + " = " + val, lineno) ==
              if !IsMulti(key) && key in cfg[0].kv then Err(DuplicateKey(lineno, key))
              else Ok([Added(cfg[0], key, val)])
  {
    hide Applied, Writable, Trim;
    assert [] + key + " " + ['='] + " " + val + [] == key + " = " + val;
    EntryLine(cfg, [], key, " ", " ", val, [], lineno);
    assert cfg[0 := Added(cfg[0], key, val)] == [Added(cfg[0], key, val)];
  }

  /** One section to print: entries in any order. */
  datatype Listing = Listing(ty: string, entries: seq<Entry>)

  function Values(es: seq<Entry>, key: string): seq<string> {
    if es == [] then []
    else Values(es[..|es| - 1], key) + if es[|es| - 1].0 == key then [es[|es| - 1].1] else []
  }

  function KeySet(es: seq<Entry>): set<string> {
    set i | 0 <= i < |es| :: es[i].0
  }

  /** The section a listing stands for: single keys with their value, multi keys with
      all theirs in order. */
  function SectionOf(ty: string, es: seq<Entry>): Section {
    Section(ty, Kv(es), Multi(es))
  }

  ghost predicate WellFormedEntries(es: seq<Entry>) {
    && (forall i :: 0 <= i < |es| ==> Writable(es[i].0, es[i].1))
    && forall i, j :: 0 <= i < j < |es| && es[i].0 == es[j].0 ==> IsMulti(es[i].0)
  }

  predicate WellFormedType(ty: string) {
    Tight(ty) && '\n' !in ty
  }

  lemma {:induction false} NoValues(es: seq<Entry>, key: string)
    ensures Values(es, key) != [] <==> key in KeySet(es)
  {
    if es != [] {
      var init, last := es[..|es| - 1], es[|es| - 1];
      NoValues(init, key);
      assert es == init + [last];
      assert key in KeySet(es) <==> key in KeySet(init) || key == last.0;
    }
  }

  lemma ValuesSnoc(es: seq<Entry>, key: string, val: string, k: string)
    ensures Values(es + [(key, val)], k) == Values(es, k) + if k == key then [val] else []
    ensures k in KeySet(es + [(key, val)]) <==> k in KeySet(es) || k == key
  {
    var all := es + [(key, val)];
    assert all[..|all| - 1] == es;
    if k in KeySet(es) {
      var i :| 0 <= i < |es| && es[i].0 == k;
      assert all[i].0 == k;
    }
    if k == key {
      assert all[|es|].0 == k;
    }
  }

  function Kv(es: seq<Entry>): map<string, string> {
    map k | k in KeySet(es) && !IsMulti(k) && Values(es, k) != [] :: Values(es, k)[0]
  }

  function Multi(es: seq<Entry>): map<string, seq<string>> {
    map k | k in KeySet(es) && IsMulti(k) :: Values(es, k)
  }

  lemma KvSnoc(es: seq<Entry>, key: string, val: string)
    requires !IsMulti(key) ==> key !in KeySet(es)
    ensures Kv(es + [(key, val)]) == if IsMulti(key) then Kv(es) else Kv(es)[key := val]
  {
    hide KeySet, Values;
    var x, y := Kv(es + [(key, val)]), if IsMulti(key) then Kv(es) else Kv(es)[key := val];
    forall k
      ensures (k in x <==> k in y) && (k in x ==> x[k] == y[k])
    {
      ValuesSnoc(es, key, val, k);
      NoValues(es, k);
    }
  }

  lemma MultiSnoc(es: seq<Entry>, key: string, val: string)
    ensures Multi(es + [(key, val)]) == if IsMulti(key) then Multi(es)[key := Values(es, key) + [val]] else Multi(es)
  {
    hide KeySet, Values;
    var x, y := Multi(es + [(key, val)]), if IsMulti(key) then Multi(es)[key := Values(es, key) + [val]] else Multi(es);
    forall k
      ensures (k in x <==> k in y) && (k in x ==> x[k] == y[k])
    {
      ValuesSnoc(es, key, val, k);
      NoValues(es, k);
    }
  }

  /** Adding an entry to the listing adds it to the section. */
  lemma SectionSnoc(ty: string, es: seq<Entry>, key: string, val: string)
    requires !IsMulti(key) ==> key !in KeySet(es)
    ensures SectionOf(ty, es + [(key, val)]) == Added(SectionOf(ty, es), key, val)
  {
    KvSnoc(es, key, val);
    MultiSnoc(es, key, val);
    NoValues(es, key);
    hide KeySet, Values, Kv;
  }

  function EntryLines(es: seq<Entry>): seq<string> {
    if es == [] then [] else [es[0].0 + " = " + es[0].1] + EntryLines(es[1..])
  }

  function SectionLines(l: Listing): seq<string> {
    [['['] + l.ty + [']']] + EntryLines(l.entries)
  }

  function ListingLines(ls: seq<Listing>): seq<string> {
    if ls == [] then [] else SectionLines(ls[0]) + ListingLines(ls[1..])
  }

  function Print(ls: seq<Listing>): string {
    Terminated(ListingLines(ls), '\n')
  }

  ghost predicate WellFormed(ls: seq<Listing>) {
    forall i :: 0 <= i < |ls| ==> WellFormedType(ls[i].ty) && WellFormedEntries(ls[i].entries)
  }

  function ConfigOf(ls: seq<Listing>): seq<Section> {
    if ls == [] then [] else [SectionOf(ls[0].ty, ls[0].entries)] + ConfigOf(ls[1..])
  }

  lemma EntryParses(cfg: seq<Section>, ty: string, done: seq<Entry>, e: Entry, lineno: nat)
    requires Writable(e.0, e.1)
    requires !IsMulti(e.0) ==> e.0 !in KeySet(done) && e.0 !in SectionOf(ty, done).kv
    ensures Applied(cfg + [SectionOf(ty, done)], e.0 + " = " + e.1, lineno) == Ok(cfg + [SectionOf(ty, done + [e])])
  {
    hide Applied, Trim, SectionOf, Writable;
    var all := cfg + [SectionOf(ty, done)];
    assert [] + e.0 + " " + ['='] + " " + e.1 + [] == e.0 + " = " + e.1;
    EntryLine(all, [], e.0, " ", " ", e.1, [], lineno);
    SectionSnoc(ty, done, e.0, e.1);
    assert all[|all| - 1 := SectionOf(ty, done + [e])] == cfg + [SectionOf(ty, done + [e])];
  }

  lemma {:induction false} EntriesParse(cfg: seq<Section>, ty: string, done: seq<Entry>, todo: seq<Entry>, lineno: nat)
    requires WellFormedEntries(done + todo)
    ensures ParseLines(cfg + [SectionOf(ty, done)], EntryLines(todo), lineno)
            == Ok(cfg + [SectionOf(ty, done + todo)])
    decreases |todo|
  {
    if todo == [] {
      assert done + todo == done;
    } else {
      hide Applied, SectionOf, Writable, KeySet;
      var e := todo[0];
      assert (done + todo)[|done|] == e;
      NewKey(done, todo);
      EntryParses(cfg, ty, done, e, lineno + 1);
      assert done + [e] + todo[1..] == done + todo;
      EntriesParse(cfg, ty, done + [e], todo[1..], lineno + 1);
    }
  }

  lemma NewKey(done: seq<Entry>, todo: seq<Entry>)
    requires WellFormedEntries(done + todo) && todo != []
    ensures var key := todo[0].0; !IsMulti(key) ==> key !in KeySet(done)
    ensures forall ty :: !IsMulti(todo[0].0) ==> todo[0].0 !in SectionOf(ty, done).kv
  {
    var key, all := todo[0].0, done + todo;
    if key in KeySet(done) {
      var i :| 0 <= i < |done| && done[i].0 == key;
      assert all[i].0 == all[|done|].0;
    }
  }

  lemma HeaderLine(cfg: seq<Section>, ty: string, lineno: nat)
    requires WellFormedType(ty)
    ensures Applied(cfg, ['['] + ty + [']'], lineno) == Ok(cfg + [SectionOf(ty, [])])
  {
    var t := ['['] + ty + [']'];
    assert [] + t + [] == t;
    TrimUnique([], t, []);
    assert t[1..|t| - 1] == ty == [] + ty + [];
    TrimUnique([], ty, []);
    assert SectionOf(ty, []) == Section(ty, map[], map[]);
  }

  lemma SectionParses(cfg: seq<Section>, l: Listing, lineno: nat)
    requires WellFormedType(l.ty) && WellFormedEntries(l.entries)
    ensures ParseLines(cfg, SectionLines(l), lineno) == Ok(cfg + [SectionOf(l.ty, l.entries)])
  {
    hide Applied, Trim, SectionOf, Writable, WellFormedType;
    HeaderLine(cfg, l.ty, lineno + 1);
    assert [] + l.entries == l.entries;
    EntriesParse(cfg, l.ty, [], l.entries, lineno + 1);
    ParseCons(cfg, ['['] + l.ty + [']'], EntryLines(l.entries), lineno);
  }

  lemma {:induction false} ListingParses(cfg: seq<Section>, ls: seq<Listing>, lineno: nat)
    requires WellFormed(ls)
    ensures ParseLines(cfg, ListingLines(ls), lineno) == Ok(cfg + ConfigOf(ls))
    decreases |ls|
  {
    ParseCons(cfg, [], [], lineno);
    hide ParseLines, SectionLines, SectionOf, WellFormedType, WellFormedEntries;
    if ls == [] {
      assert cfg + ConfigOf(ls) == cfg;
    } else {
      var one := [SectionOf(ls[0].ty, ls[0].entries)];
      ParseConcat(cfg, SectionLines(ls[0]), ListingLines(ls[1..]), lineno);
      SectionParses(cfg, ls[0], lineno);
      ListingParses(cfg + one, ls[1..], lineno + |SectionLines(ls[0])|);
      assert ConfigOf(ls) == one + ConfigOf(ls[1..]);
      assert cfg + one + ConfigOf(ls[1..]) == cfg + (one + ConfigOf(ls[1..]));
    }
  }

  lemma {:induction false} LinesAreFree(ls: seq<Listing>)
    requires WellFormed(ls)
    ensures Free(ListingLines(ls), '\n')
  {
    if ls != [] {
      LinesAreFree(ls[1..]);
      EntriesAreFree(ls[0].entries);
    }
  }

  lemma {:induction false} EntriesAreFree(es: seq<Entry>)
    requires WellFormedEntries(es)
    ensures Free(EntryLines(es), '\n')
  {
    if es != [] {
      EntriesAreFree(es[1..]);
    }
  }

  /** Parsing what was printed gives it back, in whatever order the entries of each
      section are listed. */
  lemma ParseUndoesPrint(ls: seq<Listing>)
    requires WellFormed(ls)
    ensures ParseLines([], Segments(Print(ls), '\n'), 0) == Ok(ConfigOf(ls))
  {
    LinesAreFree(ls);
    SegmentsTerminated(ListingLines(ls), '\n');
    ListingParses([], ls, 0);
    assert [] + ConfigOf(ls) == ConfigOf(ls);
  }

  // ---- what the parser can produce ----

  ghost predicate WellFormedSection(sec: Section) {
    && WellFormedType(sec.ty)
    && (forall k :: k in sec.kv ==> !IsMulti(k) && Writable(k, sec.kv[k]))
    && (forall k :: k in sec.multi ==> IsMulti(k) && sec.multi[k] != [])
    && (forall k, i :: k in sec.multi && 0 <= i < |sec.multi[k]| ==> Writable(k, sec.multi[k][i]))
  }

  ghost predicate WellFormedConfig(cfg: seq<Section>) {
    forall i :: 0 <= i < |cfg| ==> WellFormedSection(cfg[i])
  }

  lemma TrimFree(s: string, c: char)
    ensures c !in s ==> c !in Trim(s)
    ensures Tight(Trim(s))
  {
    var p, q := TrimSplit(s);
    if c in Trim(s) {
      assert c in p + Trim(s);
    }
  }

  /** Trimming keeps an end that is not blank. */
  lemma TrimEnds(s: string)
    requires s != []
    ensures !Blank(s[0]) ==> Trim(s) != [] && Trim(s)[0] == s[0]
    ensures !Blank(s[|s| - 1]) ==> Trim(s) != [] && Trim(s)[|Trim(s)| - 1] == s[|s| - 1]
  {
    var p, q := TrimSplit(s);
    assert p != [] ==> s[0] == p[0];
    assert q != [] ==> s[|s| - 1] == q[|q| - 1];
  }

  lemma EntryIsWritable(line: string)
    requires Tight(line) && '\n' !in line && !Skipped(line) && !IsHeader(line) && Index(line, '=') < |line|
    ensures var eq := Index(line, '='); Writable(Trim(line[..eq]), Trim(line[eq + 1..]))
  {
    var eq := Index(line, '=');
    var left, right := line[..eq], line[eq + 1..];
    TrimFree(left, '\n');
    TrimFree(left, '=');
    TrimFree(right, '\n');
    if left != [] {
      TrimEnds(left);
    }
    if right != [] {
      TrimEnds(right);
    }
  }

  lemma AddedIsWellFormed(sec: Section, key: string, val: string)
    requires WellFormedSection(sec) && Writable(key, val)
    ensures WellFormedSection(Added(sec, key, val))
  {
    hide Writable, WellFormedType;
    var more := Added(sec, key, val);
    assert !IsMulti(key) ==> more.multi == sec.multi;
    assert IsMulti(key) ==> more.kv == sec.kv && more.multi[key] == Many(sec, key) + [val];
  }

  lemma AppliedIsWellFormed(cfg: seq<Section>, raw: string, lineno: nat)
    requires WellFormedConfig(cfg) && '\n' !in raw && Applied(cfg, raw, lineno).Ok?
    ensures WellFormedConfig(Applied(cfg, raw, lineno).value)
  {
    var line := Trim(raw);
    TrimFree(raw, '\n');
    if !Skipped(line) && IsHeader(line) {
      TrimFree(line[1..|line| - 1], '\n');
    } else if !Skipped(line) {
      EntryIsWritable(line);
      var eq := Index(line, '=');
      AddedIsWellFormed(cfg[|cfg| - 1], Trim(line[..eq]), Trim(line[eq + 1..]));
      hide Writable, Trim, Index, Tight, WellFormedSection, Added;
    }
  }

  lemma {:induction false} ParsedIsWellFormed(cfg: seq<Section>, lines: seq<string>, lineno: nat)
    requires WellFormedConfig(cfg) && Free(lines, '\n') && ParseLines(cfg, lines, lineno).Ok?
    ensures WellFormedConfig(ParseLines(cfg, lines, lineno).value)
    decreases |lines|
  {
    if lines != [] {
      hide WellFormedConfig, Applied;
      AppliedIsWellFormed(cfg, lines[0], lineno + 1);
      ParsedIsWellFormed(Applied(cfg, lines[0], lineno + 1).value, lines[1..], lineno + 1);
    }
  }

  lemma WellFormedSnoc(es: seq<Entry>, key: string, val: string)
    requires WellFormedEntries(es) && Writable(key, val) && (!IsMulti(key) ==> key !in KeySet(es))
    ensures WellFormedEntries(es + [(key, val)])
  {
    var all := es + [(key, val)];
    hide Writable;
    assert forall i :: 0 <= i < |es| ==> es[i].0 in KeySet(es);
    forall i, j | 0 <= i < j < |all| && all[i].0 == all[j].0
      ensures IsMulti(all[i].0)
    {
      assert all[i] == es[i];
    }
  }

  lemma KeysListed(sec: Section, es: seq<Entry>)
    requires SectionOf(sec.ty, es) == sec
    ensures forall k :: !IsMulti(k) && k !in sec.kv ==> k !in KeySet(es)
  {
    forall k | !IsMulti(k) && k !in sec.kv
      ensures k !in KeySet(es)
    {
      NoValues(es, k);
    }
  }

  lemma AddedBack(sec: Section, less: Section, es: seq<Entry>, key: string, val: string)
    requires WellFormedEntries(es) && SectionOf(sec.ty, es) == less && Added(less, key, val) == sec
    requires Writable(key, val) && (!IsMulti(key) ==> key !in less.kv)
    ensures WellFormedEntries(es + [(key, val)]) && SectionOf(sec.ty, es + [(key, val)]) == sec
  {
    hide Writable, KeySet, Values;
    KeysListed(less, es);
    WellFormedSnoc(es, key, val);
    SectionSnoc(sec.ty, es, key, val);
  }

  function Entries(sec: Section): nat {
    |sec.kv| + |Many(sec, "window")| + |Many(sec, "endpoint")| + |Many(sec, "emits")|
  }

  lemma WithoutKey(sec: Section, key: string)
    requires WellFormedSection(sec) && key in sec.kv
    ensures var less := sec.(kv := sec.kv - {key});
            WellFormedSection(less) && Added(less, key, sec.kv[key]) == sec && Entries(less) < Entries(sec)
  {
    hide Writable, WellFormedType;
    var less := sec.kv - {key};
    assert less[key := sec.kv[key]] == sec.kv;
    assert less.Keys == sec.kv.Keys - {key};
  }

  /** Without the last value of a multi key. */
  function WithoutLast(sec: Section, key: string): Section
    requires key in sec.multi && sec.multi[key] != []
  {
    var vals := sec.multi[key];
    sec.(multi := if |vals| == 1 then sec.multi - {key} else sec.multi[key := vals[..|vals| - 1]])
  }

  lemma LessIsWellFormed(sec: Section, key: string)
    requires WellFormedSection(sec) && key in sec.multi
    ensures WellFormedSection(WithoutLast(sec, key))
  {
    hide Writable, WellFormedType, IsMulti;
    var less := WithoutLast(sec, key);
    forall k, i | k in less.multi && 0 <= i < |less.multi[k]|
      ensures Writable(k, less.multi[k][i])
    {
      assert less.multi[k][i] == sec.multi[k][i];
    }
  }

  lemma LessIsShorter(sec: Section, key: string)
    requires IsMulti(key) && key in sec.multi && sec.multi[key] != []
    ensures Entries(WithoutLast(sec, key)) < Entries(sec)
  {
  }

  lemma LastBack(sec: Section, key: string)
    requires IsMulti(key) && key in sec.multi && sec.multi[key] != []
    ensures var vals := sec.multi[key]; Added(WithoutLast(sec, key), key, vals[|vals| - 1]) == sec
  {
    var vals := sec.multi[key];
    var less := WithoutLast(sec, key);
    assert Many(less, key) + [vals[|vals| - 1]] == vals;
    assert less.multi[key := vals] == sec.multi;
  }

  lemma LastAdded(sec: Section, key: string)
    requires WellFormedSection(sec) && key in sec.multi
    ensures var vals := sec.multi[key];
            && WellFormedSection(WithoutLast(sec, key)) && Writable(key, vals[|vals| - 1])
            && Added(WithoutLast(sec, key), key, vals[|vals| - 1]) == sec
            && Entries(WithoutLast(sec, key)) < Entries(sec)
  {
    LessIsWellFormed(sec, key);
    LessIsShorter(sec, key);
    LastBack(sec, key);
    hide Writable, WellFormedType, Added, WithoutLast, Entries;
  }

  /** Every well-formed section has a listing. */
  lemma {:induction false} SectionListed(sec: Section) returns (es: seq<Entry>)
    requires WellFormedSection(sec)
    ensures WellFormedEntries(es) && SectionOf(sec.ty, es) == sec
    decreases Entries(sec)
  {
    if k :| k in sec.kv {
      WithoutKey(sec, k);
      hide WellFormedSection, Added, Entries, SectionOf, WellFormedEntries;
      es := SectionListed(sec.(kv := sec.kv - {k}));
      AddedBack(sec, sec.(kv := sec.kv - {k}), es, k, sec.kv[k]);
      es := es + [(k, sec.kv[k])];
    } else if k :| k in sec.multi {
      LastAdded(sec, k);
      var last := sec.multi[k][|sec.multi[k]| - 1];
      assert !IsMulti(k) ==> k !in sec.kv;
      hide WellFormedSection, Added, Entries, SectionOf, WellFormedEntries;
      es := SectionListed(WithoutLast(sec, k));
      AddedBack(sec, WithoutLast(sec, k), es, k, last);
      es := es + [(k, last)];
    } else {
      es := [];
      assert sec.kv == map[] && sec.multi == map[];
      assert KeySet([]) == {};
    }
  }

  lemma {:induction false} ConfigListed(cfg: seq<Section>) returns (ls: seq<Listing>)
    requires WellFormedConfig(cfg)
    ensures WellFormed(ls) && ConfigOf(ls) == cfg
  {
    if cfg == [] {
      ls := [];
    } else {
      hide Writable, SectionOf, WellFormedEntries;
      assert WellFormedSection(cfg[0]);
      var es := SectionListed(cfg[0]);
      var rest := ConfigListed(cfg[1..]);
      var l := Listing(cfg[0].ty, es);
      ls := [l] + rest;
      assert ls[1..] == rest;
      assert cfg == [cfg[0]] + cfg[1..];
    }
  }

  ghost predicate Parses(text: string, cfg: seq<Section>) {
    ParseLines([], Segments(text, '\n'), 0) == Ok(cfg)
  }

  /** A configuration is the result of parsing some text exactly when it is well formed;
      so printing and parsing recovers every configuration the parser can produce. */
  lemma ProducibleExactly(cfg: seq<Section>)
    ensures (exists text :: Parses(text, cfg)) <==> WellFormedConfig(cfg)
  {
    if text :| Parses(text, cfg) {
      TerminatedSegments(text, '\n');
      ParsedIsWellFormed([], Segments(text, '\n'), 0);
    }
    if WellFormedConfig(cfg) {
      var ls := ConfigListed(cfg);
      ParseUndoesPrint(ls);
      assert Parses(Print(ls), cfg);
    }
  }

  // ---- comma lists ----

  /** Trimmed, without the empty ones. */
  function Items(parts: seq<string>): seq<string> {
    if parts == [] then []
    else
      var x := Trim(parts[0]);
      (if x == [] then [] else [x]) + Items(parts[1..])
  }

  function Split(s: string): seq<string> {
    Items(Segments(s, ','))
  }

  /** `split_comma`. */
  method SplitComma(s: string) returns (result: seq<string>)
    ensures result == Split(s)
  {
    hide Segments, Trim;
    result := [];
    var rest := s;
    while rest != []
      invariant result + Items(Segments(rest, ',')) == Split(s)
      decreases |rest|
    {
      var item;
      item, rest := GetLine(rest, ',');
      assert ([item] + Segments(rest, ','))[1..] == Segments(rest, ',');
      item := Trim(item);
      if item != [] {
        result := result + [item];
      }
    }
    NoItems();
  }

  lemma NoItems()
    ensures Items(Segments([], ',')) == []
  {
  }

  ghost predicate Item(x: string) {
    x != [] && Tight(x) && ',' !in x
  }

  ghost predicate AllItems(xs: seq<string>) {
    forall i :: 0 <= i < |xs| ==> Item(xs[i])
  }

  function Join(xs: seq<string>): string {
    if xs == [] then [] else if |xs| == 1 then xs[0] else xs[0] + "," + " " + Join(xs[1..])
  }

  lemma SplitCons(a: string, b: string)
    requires ',' !in a
    ensures Split(a + [','] + b) == (if Trim(a) == [] then [] else [Trim(a)]) + Split(b)
  {
    SegmentsCons(a, ',', b);
    assert ([a] + Segments(b, ','))[1..] == Segments(b, ',');
  }

  lemma SplitOne(a: string)
    requires ',' !in a
    ensures Split(a) == if Trim(a) == [] then [] else [Trim(a)]
  {
    if a != [] {
      SegmentsLast(a, ',');
      assert [a][1..] == [];
      assert Items([a]) == (if Trim(a) == [] then [] else [Trim(a)]) + [];
    }
  }

  lemma SplitNone()
    ensures Split([]) == [] && Split([' ']) == []
  {
    SplitOne([' ']);
    assert [' '] + [] + [] == [' '];
    TrimUnique([' '], [], []);
  }

  /** Splitting is a homomorphism from commas to concatenation. */
  lemma {:induction false} SplitAppend(a: string, b: string)
    ensures Split(a + [','] + b) == Split(a) + Split(b)
    decreases |a|
  {
    hide Split, Trim;
    var i := Index(a, ',');
    if i == |a| {
      assert a[..i] == a;
      SplitCons(a, b);
      SplitOne(a);
    } else {
      var head, tail := a[..i], a[i + 1..];
      assert a == head + [','] + tail;
      assert a + [','] + b == head + [','] + (tail + [','] + b);
      SplitCons(head, tail + [','] + b);
      SplitCons(head, tail);
      SplitAppend(tail, b);
    }
  }

  /** `split_comma` undoes join. */
  lemma {:induction false} SplitUndoesJoin(xs: seq<string>)
    requires AllItems(xs)
    ensures Split(Join(xs)) == xs && Split([' '] + Join(xs)) == xs
  {
    hide Split, Trim;
    if xs == [] {
      SplitNone();
      assert [' '] + Join(xs) == [' '];
    } else {
      var x := xs[0];
      assert [' '] + x + [] == [' '] + x && [] + x + [] == x;
      TrimUnique([' '], x, []);
      TrimUnique([], x, []);
      if |xs| == 1 {
        SplitOne(x);
        SplitOne([' '] + x);
      } else {
        SplitUndoesJoin(xs[1..]);
        var rest := [' '] + Join(xs[1..]);
        assert Join(xs) == x + [','] + rest;
        assert [' '] + Join(xs) == ([' '] + x) + [','] + rest;
        SplitCons(x, rest);
        SplitCons([' '] + x, rest);
        assert xs == [x] + xs[1..];
      }
    }
  }

  /** And yields nothing that join could not have been given. */
  lemma {:induction false} SplitYieldsItems(parts: seq<string>)
    requires Free(parts, ',')
    ensures AllItems(Items(parts))
  {
    if parts != [] {
      TrimFree(parts[0], ',');
      SplitYieldsItems(parts[1..]);
    }
  }

  // ---- routes ----

  /** The targets of a stream: those of every [routes] section in turn. */
  function TargetsOf(cfg: seq<Section>, key: string): seq<string> {
    if cfg == [] then []
    else TargetsOf(cfg[..|cfg| - 1], key) + SectionTargets(cfg[|cfg| - 1], key)
  }

  function SectionTargets(sec: Section, key: string): seq<string> {
    if sec.ty == "routes" && key in sec.kv then Split(sec.kv[key]) else []
  }

  ghost predicate RoutesAre(routes: map<string, seq<string>>, cfg: seq<Section>) {
    forall k :: (if k in routes then routes[k] else []) == TargetsOf(cfg, k) && (k in routes ==> routes[k] != [])
  }

  /** `parse_routes`, whatever order the keys of a section are visited in: each stream is
      mapped to the concatenation of its target lists, and left out if that is empty. */
  method ParseRoutes(cfg: seq<Section>) returns (routes: map<string, seq<string>>)
    ensures RoutesAre(routes, cfg)
  {
    routes := map[];
    for i := 0 to |cfg|
      invariant RoutesAre(routes, cfg[..i])
    {
      assert cfg[..i + 1][..i] == cfg[..i];
      if cfg[i].ty == "routes" {
        routes := AddRoutes(routes, cfg[i]);
      }
    }
    assert cfg[..|cfg|] == cfg;
  }

  function Existing(routes: map<string, seq<string>>, key: string): seq<string> {
    if key in routes then routes[key] else []
  }

  /** The inner loop, over one section's keys. */
  method AddRoutes(before: map<string, seq<string>>, sec: Section) returns (routes: map<string, seq<string>>)
    requires sec.ty == "routes" && forall k :: k in before ==> before[k] != []
    ensures forall k :: Existing(routes, k) == Existing(before, k) + SectionTargets(sec, k)
    ensures forall k :: k in routes ==> routes[k] != []
  {
    hide Split;
    routes := before;
    var todo := sec.kv.Keys;
    while todo != {}
      invariant todo <= sec.kv.Keys
      invariant forall k ::
                  Existing(routes, k) == Existing(before, k) + if k in todo then [] else SectionTargets(sec, k)
      invariant forall k :: k in routes ==> routes[k] != []
      decreases |todo|
    {
      var key :| key in todo;
      var targets := SplitComma(sec.kv[key]);
      ghost var was := routes;
      if targets != [] {
        routes := routes[key := Existing(routes, key) + targets];
      }
      todo := todo - {key};
      forall k
        ensures Existing(routes, k) == Existing(before, k) + if k in todo then [] else SectionTargets(sec, k)
      {
        if k == key {
          assert Existing(was, k) == Existing(before, k) + [];
          assert Existing(routes, k) == Existing(was, k) + targets;
        } else {
          assert Existing(routes, k) == Existing(was, k);
        }
      }
    }
  }

  /** Streams named like a multi key are never routed: their lines do not reach `kv`. */
  lemma {:induction false} MultiKeysAreNotRouted(cfg: seq<Section>, key: string)
    requires WellFormedConfig(cfg) && IsMulti(key)
    ensures TargetsOf(cfg, key) == []
  {
    if cfg != [] {
      MultiKeysAreNotRouted(cfg[..|cfg| - 1], key);
      assert WellFormedSection(cfg[|cfg| - 1]);
    }
  }

  ghost predicate NoRoutes(cfg: seq<Section>) {
    forall i :: 0 <= i < |cfg| ==> cfg[i].ty != "routes"
  }

  lemma {:induction false} TargetsConcat(x: seq<Section>, y: seq<Section>, key: string)
    ensures TargetsOf(x + y, key) == TargetsOf(x, key) + TargetsOf(y, key)
  {
    hide SectionTargets;
    if y == [] {
      assert x + y == x;
    } else {
      assert (x + y)[..|x + y| - 1] == x + y[..|y| - 1];
      TargetsConcat(x, y[..|y| - 1], key);
    }
  }

  lemma {:induction false} NoTargets(cfg: seq<Section>, key: string)
    requires NoRoutes(cfg)
    ensures TargetsOf(cfg, key) == []
  {
    if cfg != [] {
      NoTargets(cfg[..|cfg| - 1], key);
    }
  }

  lemma RoutesSection(kv: map<string, string>, multi: map<string, seq<string>>, key: string, xs: seq<string>)
    requires AllItems(xs) && key in kv && kv[key] == Join(xs)
    ensures TargetsOf([Section("routes", kv, multi)], key) == xs
  {
    SplitUndoesJoin(xs);
    hide Split, Join;
    var cfg := [Section("routes", kv, multi)];
    assert cfg[..|cfg| - 1] == [];
    assert TargetsOf(cfg, key) == [] + xs;
  }

  /** A stream listed in two [routes] sections has the first one's targets first, whatever
      sections of other names stand around them. */
  lemma RoutesInOrder(a: seq<Section>, one: Section, b: seq<Section>, two: Section, c: seq<Section>, key: string,
                      xs: seq<string>, ys: seq<string>)
    requires NoRoutes(a) && NoRoutes(b) && NoRoutes(c) && one.ty == two.ty == "routes" && AllItems(xs) && AllItems(ys)
    requires key in one.kv && one.kv[key] == Join(xs) && key in two.kv && two.kv[key] == Join(ys)
    ensures TargetsOf(a + [one] + b + [two] + c, key) == xs + ys
  {
    hide TargetsOf, AllItems, Join;
    RoutesSection(one.kv, one.multi, key, xs);
    RoutesSection(two.kv, two.multi, key, ys);
    NoTargets(a, key);
    NoTargets(b, key);
    NoTargets(c, key);
    TargetsConcat(a, [one], key);
    TargetsConcat(a + [one], b, key);
    TargetsConcat(a + [one] + b, [two], key);
    TargetsConcat(a + [one] + b + [two], c, key);
  }

  // ---- emits ----

  function AllSplit(vals: seq<string>): seq<string> {
    if vals == [] then [] else AllSplit(vals[..|vals| - 1]) + Split(vals[|vals| - 1])
  }

  /** Its loop over the repeated lines. */
  method AddSplit(first: seq<string>, vals: seq<string>) returns (result: seq<string>)
    ensures result == first + AllSplit(vals)
  {
    hide Split;
    result := first;
    for i := 0 to |vals|
      invariant result == first + AllSplit(vals[..i])
    {
      assert vals[..i + 1][..i] == vals[..i];
      var parts := SplitComma(vals[i]);
      result := result + parts;
    }
    assert vals[..|vals|] == vals;
  }

  /** `get_script_emits`. */
  method GetScriptEmits(sec: Section) returns (result: seq<string>)
    ensures result == (if "emits" in sec.kv then Split(sec.kv["emits"]) else []) + AllSplit(Many(sec, "emits"))
  {
    hide Split;
    result := [];
    if "emits" in sec.kv {
      result := SplitComma(sec.kv["emits"]);
    }
    if "emits" in sec.multi {
      result := AddSplit(result, sec.multi["emits"]);
    }
  }

  /** The lines of a repeated key, joined by commas. */
  function OneLine(vals: seq<string>): string {
    if vals == [] then [] else OneLine(vals[..|vals| - 1]) + [','] + vals[|vals| - 1]
  }

  /** Several `emits` lines mean what one line with all of them would. */
  lemma {:induction false} LinesMeanOneLine(vals: seq<string>)
    ensures AllSplit(vals) == Split(OneLine(vals))
  {
    if vals != [] {
      LinesMeanOneLine(vals[..|vals| - 1]);
      SplitAppend(OneLine(vals[..|vals| - 1]), vals[|vals| - 1]);
    }
  }

  // ---- windows ----

  datatype ParsedWindow = ParsedWindow(streamId: string, timeBased: bool, n: u64)

  datatype WindowError = TooFewFields | InvalidNumber | NumberOutOfRange

  datatype Parsed<+T> = Good(value: T) | Bad(reason: WindowError)

  /** Trimmed fields; unlike `split_comma` empty ones count and the last always does. */
  function Fields(s: string): seq<string>
    decreases |s|
  {
    var i := Index(s, ',');
    if i == |s| then [Trim(s)] else [Trim(s[..i])] + Fields(s[i + 1..])
  }

  /** The loop over characters that collects `tok`. */
  method ReadFields(val: string) returns (parts: seq<string>)
    ensures parts == Fields(val)
  {
    hide Fields, Trim, Index;
    parts := [];
    var tok: string := [];
    assert tok + val[0..] == val;
    for i := 0 to |val|
      invariant ',' !in tok
      invariant parts + Fields(tok + val[i..]) == Fields(val)
    {
      assert tok + val[i..] == tok + [val[i]] + val[i + 1..];
      if val[i] == ',' {
        FieldsCons(tok, val[i + 1..]);
        parts := parts + [Trim(tok)];
        tok := [];
        assert tok + val[i + 1..] == val[i + 1..];
      } else {
        tok := tok + [val[i]];
      }
    }
    assert tok + val[|val|..] == tok;
    LastField(tok);
    parts := parts + [Trim(tok)];
  }

  lemma FieldsCons(a: string, b: string)
    requires ',' !in a
    ensures Fields(a + [','] + b) == [Trim(a)] + Fields(b)
  {
    IndexParts(a, ',', b);
  }

  lemma LastField(a: string)
    requires ',' !in a
    ensures Fields(a) == [Trim(a)]
  {
  }

  predicate IsDigit(c: char) { '0' <= c <= '9' }

  /** The leading digits. */
  function DigitsOf(s: string): (d: string)
    ensures |d| <= |s| && d == s[..|d|] && forall i :: 0 <= i < |d| ==> IsDigit(d[i])
  {
    if s == [] || !IsDigit(s[0]) then [] else [s[0]] + DigitsOf(s[1..])
  }

  function NumberOf(d: string): nat
    requires forall i :: 0 <= i < |d| ==> IsDigit(d[i])
  {
    if d == [] then 0
    else
      var last := d[|d| - 1];
      assert IsDigit(last);
      10 * NumberOf(d[..|d| - 1]) + (last - '0') as nat
  }

  /** `std::stoull` in base ten on a trimmed field: a sign, digits, and anything after. */
  function Stoull(s: string): Parsed<u64> {
    var signed := s != [] && (s[0] == '-' || s[0] == '+');
    var d := DigitsOf(if signed then s[1..] else s);
    if d == [] then Bad(InvalidNumber)
    else if NumberOf(d) >= U64 then Bad(NumberOutOfRange)
    else if signed && s[0] == '-' && NumberOf(d) > 0 then Good(U64 - NumberOf(d))
    else Good(NumberOf(d))
  }

  /** `parse_window`. */
  method ParseWindow(val: string) returns (r: Parsed<ParsedWindow>)
    ensures r == WindowOf(Fields(val))
  {
    var parts := ReadFields(val);
    if |parts| < 3 {
      return Bad(TooFewFields);
    }
    var timeBased := parts[1] == "time";
    match Stoull(parts[2])
    case Bad(e) => return Bad(e);
    case Good(n) => return Good(ParsedWindow(parts[0], timeBased, n));
  }

  function WindowOf(parts: seq<string>): Parsed<ParsedWindow> {
    if |parts| < 3 then Bad(TooFewFields)
    else
      match Stoull(parts[2])
      case Bad(e) => Bad(e)
      case Good(n) => Good(ParsedWindow(parts[0], parts[1] == "time", n))
  }

  function Decimal(n: nat): (d: string)
    ensures d != [] && forall i :: 0 <= i < |d| ==> IsDigit(d[i])
  {
    if n < 10 then ['0' + n as char] else Decimal(n / 10) + ['0' + (n % 10) as char]
  }

  lemma {:induction false} DecimalNumber(n: nat)
    ensures NumberOf(Decimal(n)) == n && DigitsOf(Decimal(n)) == Decimal(n)
  {
    AllDigits(Decimal(n));
    if n >= 10 {
      DecimalNumber(n / 10);
      var d := Decimal(n);
      assert d[..|d| - 1] == Decimal(n / 10);
    }
  }

  lemma {:induction false} AllDigits(d: string)
    requires forall i :: 0 <= i < |d| ==> IsDigit(d[i])
    ensures DigitsOf(d) == d
  {
    if d != [] {
      AllDigits(d[1..]);
    }
  }

  function Kind(timeBased: bool): string {
    if timeBased then "time" else "count"
  }

  lemma KindIsField(timeBased: bool)
    ensures var k := Kind(timeBased); ',' !in k && Trim([' '] + k) == k && (k == "time" <==> timeBased)
  {
    var k := Kind(timeBased);
    assert [' '] + k + [] == [' '] + k;
    TrimUnique([' '], k, []);
  }

  function PrintWindow(w: ParsedWindow): string {
    w.streamId + [','] + ([' '] + Kind(w.timeBased) + [','] + ([' '] + Decimal(w.n)))
  }

  lemma WindowFields(w: ParsedWindow)
    requires Tight(w.streamId) && ',' !in w.streamId
    ensures Fields(PrintWindow(w)) == [w.streamId, Kind(w.timeBased), Decimal(w.n)]
  {
    KindIsField(w.timeBased);
    hide Trim, Index, Kind, Fields, Decimal;
    var kind, number := [' '] + Kind(w.timeBased), [' '] + Decimal(w.n);
    assert [] + w.streamId + [] == w.streamId && [' '] + Decimal(w.n) + [] == number;
    TrimUnique([], w.streamId, []);
    DigitsAreTight(Decimal(w.n));
    TrimUnique([' '], Decimal(w.n), []);
    FieldsCons(w.streamId, kind + [','] + number);
    FieldsCons(kind, number);
    LastField(number);
  }

  lemma DigitsAreTight(d: string)
    requires d != [] && forall i :: 0 <= i < |d| ==> IsDigit(d[i])
    ensures Tight(d) && ',' !in d
  {
    assert IsDigit(d[0]) && IsDigit(d[|d| - 1]);
  }

  /** A printed window specification is read back. */
  lemma WindowRoundTrip(w: ParsedWindow)
    requires Tight(w.streamId) && ',' !in w.streamId
    ensures WindowOf(Fields(PrintWindow(w))) == Good(w)
  {
    WindowFields(w);
    DecimalNumber(w.n);
    KindIsField(w.timeBased);
    assert IsDigit(Decimal(w.n)[0]);
  }

  lemma Unsigned(n: nat, rest: string)
    requires rest == [] || rest[0] < '0' || rest[0] > '9'
    ensures var s := Decimal(n) + rest;
            s[0] != '+' && s[0] != '-' && DigitsOf(s) != [] && NumberOf(DigitsOf(s)) == n
  {
    DecimalNumber(n);
    DigitsStop(Decimal(n), rest);
    hide DigitsOf, NumberOf;
    assert IsDigit(Decimal(n)[0]);
  }

  lemma PlainNumber(n: nat, rest: string)
    requires rest == [] || rest[0] < '0' || rest[0] > '9'
    ensures Stoull(Decimal(n) + rest) == if n >= U64 then Bad(NumberOutOfRange) else Good(n)
  {
    Unsigned(n, rest);
    hide Decimal, DigitsOf, NumberOf;
  }

  lemma SignedNumber(sign: char, n: nat, rest: string)
    requires (sign == '+' || sign == '-') && (rest == [] || rest[0] < '0' || rest[0] > '9')
    ensures Stoull([sign] + (Decimal(n) + rest)) ==
              if n >= U64 then Bad(NumberOutOfRange)
              else Good(if sign == '-' && n > 0 then U64 - n else n)
  {
    Unsigned(n, rest);
    hide Decimal, DigitsOf, NumberOf;
    assert ([sign] + (Decimal(n) + rest))[1..] == Decimal(n) + rest;
  }

  /** The number is an optional sign, digits, and whatever follows them; a minus sign wraps. */
  lemma StoullExactly(sign: string, n: nat, rest: string)
    requires sign in ["", "+", "-"] && (rest == [] || rest[0] < '0' || rest[0] > '9')
    ensures Stoull(sign + Decimal(n) + rest) ==
              if n >= U64 then Bad(NumberOutOfRange)
              else Good(if sign == "-" && n > 0 then U64 - n else n)
  {
    hide Decimal, Stoull;
    if sign == "" {
      PlainNumber(n, rest);
      assert sign + Decimal(n) + rest == Decimal(n) + rest;
    } else {
      SignedNumber(sign[0], n, rest);
      assert sign + Decimal(n) + rest == [sign[0]] + (Decimal(n) + rest);
    }
  }

  /** Without a digit after the sign there is no number. */
  lemma NoNumber(sign: string, rest: string)
    requires sign in ["+", "-"] || (sign == "" && (rest == [] || rest[0] !in "+-"))
    requires rest == [] || rest[0] < '0' || rest[0] > '9'
    ensures Stoull(sign + rest) == Bad(InvalidNumber)
  {
    DigitsStop([], rest);
    assert [] + rest == rest;
    if sign != "" {
      assert (sign + rest)[1..] == rest;
    }
  }

  lemma {:induction false} DigitsStop(d: string, rest: string)
    requires forall i :: 0 <= i < |d| ==> IsDigit(d[i])
    requires rest == [] || rest[0] < '0' || rest[0] > '9'
    ensures DigitsOf(d + rest) == d
  {
    if d == [] {
      assert d + rest == rest;
    } else {
      assert (d + rest)[1..] == d[1..] + rest;
      DigitsStop(d[1..], rest);
    }
  }

  /** Only the word `time` makes a window time-based; fields after the third are not read. */
  lemma WindowText(id: string, kind: string, n: u64, more: string)
    requires Tight(id) && ',' !in id && Tight(kind) && ',' !in kind && (more == [] || more[0] == ',')
    ensures WindowOf(Fields(id + "," + kind + "," + Decimal(n) + more))
            == Good(ParsedWindow(id, kind == "time", n))
  {
    hide Fields, Trim, Index, Decimal, Stoull;
    DigitsAreTight(Decimal(n));
    Untouched(id);
    Untouched(kind);
    Untouched(Decimal(n));
    var tail := Decimal(n) + more;
    assert id + "," + kind + "," + Decimal(n) + more == id + [','] + (kind + [','] + tail);
    FieldsCons(id, kind + [','] + tail);
    FieldsCons(kind, tail);
    if more == [] {
      assert tail == Decimal(n);
      LastField(Decimal(n));
    } else {
      assert tail == Decimal(n) + [','] + more[1..];
      FieldsCons(Decimal(n), more[1..]);
    }
    StoullExactly([], n, []);
    assert [] + Decimal(n) + [] == Decimal(n);
  }

  lemma Untouched(t: string)
    requires Tight(t)
    ensures Trim(t) == t
  {
    assert [] + t + [] == t;
    TrimUnique([], t, []);
  }

  /** There is one field more than there are commas. */
  lemma {:induction false} FieldsByCommas(s: string)
    ensures |Fields(s)| == 1 + multiset(s)[',']
    decreases |s|
  {
    hide Trim;
    var i := Index(s, ',');
    if i < |s| {
      assert s == s[..i] + [','] + s[i + 1..];
      FieldsByCommas(s[i + 1..]);
    }
    assert multiset(s[..i])[','] == 0;
  }
}
