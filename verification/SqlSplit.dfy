/** Splitting a migration file into SQL statements. */
module SqlSplit {
  import opened Wrappers

  datatype SqlError = OpenQuote | OpenComment

  // ---- trimming ----------------------------------------------------------------------------------

  /** The characters that `str.strip` removes. */
  predicate IsSpace(c: char) {
    var x := c as int;
    || 0x09 <= x <= 0x0d || 0x1c <= x <= 0x20 || x == 0x85 || x == 0xa0 || x == 0x1680 || 0x2000 <= x <= 0x200a
    || x == 0x2028 || x == 0x2029 || x == 0x202f || x == 0x205f || x == 0x3000
  }

  ghost predicate Blank(s: string) {
    forall i :: 0 <= i < |s| ==> IsSpace(s[i])
  }

  function TrimLeft(s: string): string {
    if s == "" || !IsSpace(s[0]) then s else TrimLeft(s[1..])
  }

  function TrimRight(s: string): string {
    if s == "" || !IsSpace(s[|s| - 1]) then s else TrimRight(s[..|s| - 1])
  }

  function Strip(s: string): string {
    TrimRight(TrimLeft(s))
  }

  lemma {:induction false} TrimLeftSplits(s: string) returns (lead: string)
    ensures s == lead + TrimLeft(s) && Blank(lead)
    ensures TrimLeft(s) != "" ==> !IsSpace(TrimLeft(s)[0])
  {
    if s == "" || !IsSpace(s[0]) {
      lead := "";
    } else {
      var more := TrimLeftSplits(s[1..]);
      lead := [s[0]] + more;
      assert s == [s[0]] + s[1..];
    }
  }

  lemma {:induction false} TrimRightSplits(s: string) returns (trail: string)
    ensures s == TrimRight(s) + trail && Blank(trail)
    ensures TrimRight(s) != "" ==> !IsSpace(TrimRight(s)[|TrimRight(s)| - 1]) && TrimRight(s)[0] == s[0]
  {
    if s == "" || !IsSpace(s[|s| - 1]) {
      trail := "";
    } else {
      var more := TrimRightSplits(s[..|s| - 1]);
      trail := more + [s[|s| - 1]];
      assert s == s[..|s| - 1] + [s[|s| - 1]];
    }
  }

  /** Stripping takes blanks from both ends and leaves no blank at either. */
  lemma {:induction false} StripExact(s: string) returns (lead: string, trail: string)
    ensures s == lead + Strip(s) + trail && Blank(lead) && Blank(trail)
    ensures Strip(s) != "" ==> !IsSpace(Strip(s)[0]) && !IsSpace(Strip(s)[|Strip(s)| - 1])
  {
    lead := TrimLeftSplits(s);
    trail := TrimRightSplits(TrimLeft(s));
  }

  // ---- the scan ----------------------------------------------------------------------------------

  datatype Mode = Plain | Line | Block | Quoted(quote: char)

  predicate IsQuote(c: char) {
    c == '\'' || c == '"' || c == '`'
  }

  predicate Starts(s: string, c: char) {
    s != "" && s[0] == c
  }

  function Flush(out: seq<string>, buffer: string): seq<string> {
    if Strip(buffer) == "" then out else out + [Strip(buffer)]
  }

  /** What the scan makes of the remaining text, from a mode, an unfinished statement and the
      statements so far. */
  function Run(s: string, mode: Mode, buffer: string, out: seq<string>): Result<seq<string>, SqlError>
    decreases |s|
  {
    if s == "" then
      if mode.Quoted? then Err(OpenQuote) else if mode.Block? then Err(OpenComment) else Ok(Flush(out, buffer))
    else
      var c, rest := s[0], s[1..];
      match mode
      case Line => if c == '\n' then Run(rest, Plain, buffer + [c], out) else Run(rest, Line, buffer, out)
      case Block =>
        if c == '*' && Starts(rest, '/') then Run(rest[1..], Plain, buffer, out) else Run(rest, Block, buffer, out)
      case Quoted(q) =>
        if c == '\\' && rest != "" then Run(rest[1..], mode, buffer + [c, rest[0]], out)
        else if c == q && Starts(rest, q) then Run(rest[1..], mode, buffer + [c, q], out)
        else Run(rest, if c == q then Plain else mode, buffer + [c], out)
      case Plain =>
        if c == '-' && Starts(rest, '-') then Run(rest[1..], Line, buffer, out)
        else if c == '/' && Starts(rest, '*') then Run(rest[1..], Block, buffer, out)
        else if IsQuote(c) then Run(rest, Quoted(c), buffer + [c], out)
        else if c == ';' then Run(rest, Plain, "", Flush(out, buffer))
        else Run(rest, Plain, buffer + [c], out)
  }

  function ModeOf(quote: Option<char>, line: bool, block: bool): Mode {
    if line then Line else if block then Block else if quote.Some? then Quoted(quote.value) else Plain
  }

  method SplitStatements(sql: string) returns (r: Result<seq<string>, SqlError>)
    ensures r == Run(sql, Plain, "", [])
  {
    var statements: seq<string> := [];
    var buffer := "";
    var quote: Option<char> := None;
    var line, block := false, false;
    var index := 0;
    assert sql[0..] == sql;
    while index < |sql|
      invariant 0 <= index <= |sql|
      invariant !(line && block) && ((line || block) ==> quote.None?)
      invariant Run(sql[index..], ModeOf(quote, line, block), buffer, statements) == Run(sql, Plain, "", [])
      decreases |sql| - index
    {
      var c := sql[index];
      var following := if index + 1 < |sql| then Some(sql[index + 1]) else None;
      assert sql[index..][0] == c && sql[index..][1..] == sql[index + 1..];
      assert following.Some? ==> sql[index + 1..][0] == following.value && sql[index + 1..][1..] == sql[index + 2..];
      if line {
        if c == '\n' {
          line := false;
          buffer := buffer + ['\n'];
        }
        index := index + 1;
        continue;
      }
      if block {
        if c == '*' && following == Some('/') {
          block := false;
          index := index + 2;
        } else {
          index := index + 1;
        }
        continue;
      }
      if quote.Some? {
        ghost var before := buffer;
        buffer := buffer + [c];
        if c == '\\' && following.Some? {
          buffer := buffer + [following.value];
          assert buffer == before + [c, following.value];
          index := index + 2;
          continue;
        }
        if c == quote.value {
          if following == Some(quote.value) {
            buffer := buffer + [following.value];
            assert buffer == before + [c, following.value];
            index := index + 2;
            continue;
          }
          quote := None;
        }
        index := index + 1;
        continue;
      }
      if c == '-' && following == Some('-') {
        line := true;
        index := index + 2;
        continue;
      }
      if c == '/' && following == Some('*') {
        block := true;
        index := index + 2;
        continue;
      }
      if IsQuote(c) {
        quote := Some(c);
        buffer := buffer + [c];
        index := index + 1;
        continue;
      }
      if c == ';' {
        var statement := Strip(buffer);
        if statement != "" {
          statements := statements + [statement];
        }
        buffer := "";
        index := index + 1;
        continue;
      }
      buffer := buffer + [c];
      index := index + 1;
    }
    if quote.Some? {
      return Err(OpenQuote);
    }
    if block {
      return Err(OpenComment);
    }
    var trailing := Strip(buffer);
    if trailing != "" {
      statements := statements + [trailing];
    }
    return Ok(statements);
  }

  // ---- SQL text as lexical pieces ----------------------------------------------------------------

  datatype Item = Char(c: char) | Doubled | Escaped(c: char)

  datatype Piece =
    | Other(c: char)
    | Quotation(quote: char, items: seq<Item>)
    | LineComment(text: string)
    | BlockComment(text: string)
    | Semicolon

  function ItemText(i: Item, q: char): string {
    match i
    case Char(c) => [c]
    case Doubled => [q, q]
    case Escaped(c) => ['\\', c]
  }

  function ItemsText(items: seq<Item>, q: char): string {
    if items == [] then "" else ItemText(items[0], q) + ItemsText(items[1..], q)
  }

  function Render(p: Piece): string {
    match p
    case Other(c) => [c]
    case Quotation(q, items) => [q] + ItemsText(items, q) + [q]
    case LineComment(text) => "--" + text + "\n"
    case BlockComment(text) => "/*" + text + "*/"
    case Semicolon => ";"
  }

  ghost predicate ProperItem(i: Item, q: char) {
    i.Char? ==> i.c != q && i.c != '\\'
  }

  ghost predicate Closes(text: string, k: nat)
    requires k < |text|
  {
    text[k] == '*' && Starts(text[k + 1..], '/')
  }

  ghost predicate Proper(p: Piece) {
    match p
    case Other(c) => !IsQuote(c) && c != ';'
    case Quotation(q, items) => IsQuote(q) && forall k :: 0 <= k < |items| ==> ProperItem(items[k], q)
    case LineComment(text) => '\n' !in text
    case BlockComment(text) => forall k :: 0 <= k < |text| ==> !Closes(text, k)
    case Semicolon => true
  }

  /** The piece and the text after it would be read differently together. */
  predicate Clash(p: Piece, rest: string) {
    match p
    case Other(c) => (c == '-' && Starts(rest, '-')) || (c == '/' && Starts(rest, '*'))
    case Quotation(q, _) => Starts(rest, q)
    case _ => false
  }

  /** A file may end inside a line comment. */
  function TailText(tail: Option<string>): string {
    if tail.None? then "" else "--" + tail.value
  }

  function Text(ps: seq<Piece>, tail: Option<string>): string {
    if ps == [] then TailText(tail) else Render(ps[0]) + Text(ps[1..], tail)
  }

  ghost predicate WellFormed(ps: seq<Piece>, tail: Option<string>) {
    if ps == [] then tail.Some? ==> '\n' !in tail.value
    else Proper(ps[0]) && !Clash(ps[0], Text(ps[1..], tail)) && WellFormed(ps[1..], tail)
  }

  /** What a statement keeps of a piece: comments go, but a line comment leaves its line break. */
  function Kept(p: Piece): string {
    match p
    case Other(c) => [c]
    case Quotation(q, items) => Render(p)
    case LineComment(_) => "\n"
    case BlockComment(_) => ""
    case Semicolon => ""
  }

  /** The statements spelled by the pieces: cut at each semicolon, trimmed, empty ones dropped. */
  function Statements(ps: seq<Piece>, buffer: string, out: seq<string>): seq<string> {
    if ps == [] then Flush(out, buffer)
    else if ps[0].Semicolon? then Statements(ps[1..], "", Flush(out, buffer))
    else Statements(ps[1..], buffer + Kept(ps[0]), out)
  }

  // ---- scanning the text of pieces ---------------------------------------------------------------

  lemma {:induction false} LineScan(text: string, rest: string, buffer: string, out: seq<string>)
    requires '\n' !in text
    ensures Run(text + ("\n" + rest), Line, buffer, out) == Run(rest, Plain, buffer + "\n", out)
  {
    var s := text + ("\n" + rest);
    if text == "" {
      assert s[1..] == rest;
    } else {
      LineScan(text[1..], rest, buffer, out);
      assert s[1..] == text[1..] + ("\n" + rest);
    }
  }

  lemma {:induction false} BlockScan(text: string, rest: string, buffer: string, out: seq<string>)
    requires forall k :: 0 <= k < |text| ==> !Closes(text, k)
    ensures Run(text + ("*/" + rest), Block, buffer, out) == Run(rest, Plain, buffer, out)
  {
    var s := text + ("*/" + rest);
    if text == "" {
      assert s[1..][0] == '/' && s[1..][1..] == rest;
    } else {
      var less := text[1..];
      forall k | 0 <= k < |less| ensures !Closes(less, k) {
        assert text[k + 1..][1..] == less[k + 1..] && !Closes(text, k + 1);
      }
      BlockScan(less, rest, buffer, out);
      assert s[1..] == less + ("*/" + rest);
      assert !Closes(text, 0) && less == text[0 + 1..];
    }
  }

  lemma {:induction false} QuoteScan(items: seq<Item>, q: char, rest: string, buffer: string, out: seq<string>)
    requires IsQuote(q) && !Starts(rest, q)
    requires forall k :: 0 <= k < |items| ==> ProperItem(items[k], q)
    ensures Run(ItemsText(items, q) + ([q] + rest), Quoted(q), buffer, out)
         == Run(rest, Plain, buffer + ItemsText(items, q) + [q], out)
  {
    var s := ItemsText(items, q) + ([q] + rest);
    if items == [] {
      assert s == [q] + rest && s[1..] == rest;
      assert buffer + ItemsText(items, q) + [q] == buffer + [q];
    } else {
      var first, more := ItemText(items[0], q), ItemsText(items[1..], q) + ([q] + rest);
      assert s == first + more;
      QuoteScan(items[1..], q, rest, buffer + first, out);
      assert buffer + ItemsText(items, q) + [q] == buffer + first + ItemsText(items[1..], q) + [q];
      ItemScan(items[0], q, more, buffer, out);
    }
  }

  lemma {:induction false} ItemScan(i: Item, q: char, more: string, buffer: string, out: seq<string>)
    requires IsQuote(q) && ProperItem(i, q)
    ensures Run(ItemText(i, q) + more, Quoted(q), buffer, out) == Run(more, Quoted(q), buffer + ItemText(i, q), out)
  {
    var s := ItemText(i, q) + more;
    match i
    case Char(c) => assert s[1..] == more;
    case Doubled => assert s[1..][0] == q && s[1..][1..] == more;
    case Escaped(c) => assert s[1..][0] == c && s[1..][1..] == more;
  }

  lemma {:induction false} CommentScan(p: Piece, rest: string, buffer: string, out: seq<string>)
    requires Proper(p) && (p.LineComment? || p.BlockComment?)
    ensures Run(Render(p) + rest, Plain, buffer, out) == Run(rest, Plain, buffer + Kept(p), out)
  {
    var s := Render(p) + rest;
    if p.LineComment? {
      assert s[0] == '-' && s[1..][0] == '-' && s[1..][1..] == p.text + ("\n" + rest);
      LineScan(p.text, rest, buffer, out);
    } else {
      assert s[0] == '/' && s[1..][0] == '*' && s[1..][1..] == p.text + ("*/" + rest);
      BlockScan(p.text, rest, buffer, out);
      assert buffer + Kept(p) == buffer;
    }
  }

  lemma {:induction false} QuotationScan(q: char, items: seq<Item>, rest: string, buffer: string, out: seq<string>)
    requires Proper(Quotation(q, items)) && !Starts(rest, q)
    ensures var text := Render(Quotation(q, items));
            Run(text + rest, Plain, buffer, out) == Run(rest, Plain, buffer + text, out)
  {
    var text := Render(Quotation(q, items));
    var s := text + rest;
    assert s[0] == q && s[1..] == ItemsText(items, q) + ([q] + rest);
    QuoteScan(items, q, rest, buffer + [q], out);
    assert buffer + text == buffer + [q] + ItemsText(items, q) + [q];
  }

  /** Scanning a piece keeps what the piece keeps, whatever follows it without a clash. */
  lemma {:induction false} PieceScan(p: Piece, rest: string, buffer: string, out: seq<string>)
    requires Proper(p) && !Clash(p, rest)
    ensures Run(Render(p) + rest, Plain, buffer, out)
         == if p.Semicolon? then Run(rest, Plain, "", Flush(out, buffer)) else Run(rest, Plain, buffer + Kept(p), out)
  {
    if p.LineComment? || p.BlockComment? {
      CommentScan(p, rest, buffer, out);
    } else if p.Quotation? {
      QuotationScan(p.quote, p.items, rest, buffer, out);
    } else {
      var s := Render(p) + rest;
      assert s[1..] == rest;
    }
  }

  lemma {:induction false} TailScan(text: string, buffer: string, out: seq<string>)
    requires '\n' !in text
    ensures Run(text, Line, buffer, out) == Ok(Flush(out, buffer))
  {
    if text != "" {
      TailScan(text[1..], buffer, out);
    }
  }

  /** The text of well-formed pieces splits into the statements that the pieces spell. */
  lemma {:induction false} ScanPieces(ps: seq<Piece>, tail: Option<string>, buffer: string, out: seq<string>)
    requires WellFormed(ps, tail)
    ensures Run(Text(ps, tail), Plain, buffer, out) == Ok(Statements(ps, buffer, out))
  {
    if ps == [] {
      if tail.Some? {
        var s := TailText(tail);
        assert s[1..][0] == '-' && s[1..][1..] == tail.value;
        TailScan(tail.value, buffer, out);
      }
    } else {
      PieceScan(ps[0], Text(ps[1..], tail), buffer, out);
      if ps[0].Semicolon? {
        ScanPieces(ps[1..], tail, "", Flush(out, buffer));
      } else {
        ScanPieces(ps[1..], tail, buffer + Kept(ps[0]), out);
      }
    }
  }

  // ---- and back: every accepted text is that of well-formed pieces -------------------------------

  lemma {:induction false} ParseLine(s: string, buffer: string, out: seq<string>)
      returns (text: string, rest: Option<string>)
    ensures '\n' !in text
    ensures rest.None? ==> s == text
    ensures rest.Some? ==> s == text + "\n" + rest.value
  {
    if s == "" {
      text, rest := "", None;
    } else if s[0] == '\n' {
      text, rest := "", Some(s[1..]);
      assert s == "\n" + s[1..];
    } else {
      text, rest := ParseLine(s[1..], buffer, out);
      text := [s[0]] + text;
      assert s == [s[0]] + s[1..];
    }
  }

  lemma {:induction false} ParseBlock(s: string, buffer: string, out: seq<string>) returns (text: string, rest: string)
    requires Run(s, Block, buffer, out).Ok?
    ensures s == text + "*/" + rest && forall k :: 0 <= k < |text| ==> !Closes(text, k)
  {
    if s[0] == '*' && Starts(s[1..], '/') {
      text, rest := "", s[2..];
      assert s == "*/" + rest;
    } else {
      var less;
      less, rest := ParseBlock(s[1..], buffer, out);
      text := [s[0]] + less;
      assert s == [s[0]] + s[1..];
      forall k | 0 <= k < |text| ensures !Closes(text, k) {
        if k > 0 {
          assert text[k + 1..] == less[k..] && !Closes(less, k - 1);
        } else {
          assert text[0 + 1..] == less;
          assert less != "" ==> less[0] == s[1..][0];
        }
      }
    }
  }

  lemma {:induction false} ParseQuote(s: string, q: char, buffer: string, out: seq<string>)
      returns (items: seq<Item>, rest: string)
    requires IsQuote(q) && Run(s, Quoted(q), buffer, out).Ok?
    ensures s == ItemsText(items, q) + [q] + rest && !Starts(rest, q)
    ensures forall k :: 0 <= k < |items| ==> ProperItem(items[k], q)
    decreases |s|
  {
    var first: Item;
    if s[0] == '\\' && s[1..] != "" {
      first := Escaped(s[1]);
      items, rest := ParseQuote(s[1..][1..], q, buffer + [s[0], s[1]], out);
    } else if s[0] == q && Starts(s[1..], q) {
      first := Doubled;
      items, rest := ParseQuote(s[1..][1..], q, buffer + [s[0], q], out);
    } else if s[0] == q {
      items, rest := [], s[1..];
      assert s == [q] + rest;
      return;
    } else {
      first := Char(s[0]);
      items, rest := ParseQuote(s[1..], q, buffer + [s[0]], out);
    }
    assert s == ItemText(first, q) + ItemsText(items, q) + [q] + rest;
    assert ([first] + items)[1..] == items;
    items := [first] + items;
  }

  /** The first piece of an accepted text, and the text after it. */
  lemma {:induction false} ParsePiece(s: string, buffer: string, out: seq<string>) returns (p: Piece, rest: string)
    requires s != "" && Run(s, Plain, buffer, out).Ok?
    requires !(s[0] == '-' && Starts(s[1..], '-'))
    ensures s == Render(p) + rest && Proper(p) && !Clash(p, rest) && |rest| < |s|
  {
    var c, more := s[0], s[1..];
    assert s == [c] + more;
    if c == '/' && Starts(more, '*') {
      var text;
      text, rest := ParseBlock(more[1..], buffer, out);
      assert s == "/*" + more[1..];
      p := BlockComment(text);
    } else if IsQuote(c) {
      var items;
      items, rest := ParseQuote(more, c, buffer + [c], out);
      p := Quotation(c, items);
      assert s == Render(p) + rest;
    } else {
      p, rest := if c == ';' then Semicolon else Other(c), more;
    }
  }

  /** Every text that splits is the text of well-formed pieces. */
  lemma {:induction false} ParseText(s: string, buffer: string, out: seq<string>)
      returns (ps: seq<Piece>, tail: Option<string>)
    requires Run(s, Plain, buffer, out).Ok?
    ensures WellFormed(ps, tail) && Text(ps, tail) == s
    decreases |s|
  {
    if s == "" {
      return [], None;
    }
    var p, rest;
    if s[0] == '-' && Starts(s[1..], '-') {
      var text, after := ParseLine(s[1..][1..], buffer, out);
      assert s == "--" + s[1..][1..];
      if after.None? {
        return [], Some(text);
      }
      p, rest := LineComment(text), after.value;
      assert s == Render(p) + rest;
    } else {
      p, rest := ParsePiece(s, buffer, out);
    }
    PieceScan(p, rest, buffer, out);
    if p.Semicolon? {
      ps, tail := ParseText(rest, "", Flush(out, buffer));
    } else {
      ps, tail := ParseText(rest, buffer + Kept(p), out);
    }
    assert ([p] + ps)[1..] == ps;
    ps := [p] + ps;
  }

  /** A file splits exactly when it is the text of well-formed pieces, and then into the statements that
      those pieces spell. */
  lemma {:induction false} SplitsIff(sql: string, statements: seq<string>)
    ensures Run(sql, Plain, "", []) == Ok(statements)
       <==> exists ps, tail :: WellFormed(ps, tail) && Text(ps, tail) == sql && Statements(ps, "", []) == statements
  {
    if Run(sql, Plain, "", []) == Ok(statements) {
      var ps, tail := ParseText(sql, "", []);
      ScanPieces(ps, tail, "", []);
      assert WellFormed(ps, tail) && Text(ps, tail) == sql && Statements(ps, "", []) == statements;
    }
    if ps, tail :| WellFormed(ps, tail) && Text(ps, tail) == sql && Statements(ps, "", []) == statements {
      ScanPieces(ps, tail, "", []);
    }
  }

  // ---- splitting undoes joining ------------------------------------------------------------------

  /** A statement on its own: no semicolon outside quotations and comments. */
  ghost predicate IsStatement(ps: seq<Piece>) {
    WellFormed(ps, None) && forall k :: 0 <= k < |ps| ==> !ps[k].Semicolon?
  }

  function KeptText(ps: seq<Piece>): string {
    if ps == [] then "" else Kept(ps[0]) + KeptText(ps[1..])
  }

  function Joined(ss: seq<seq<Piece>>): string {
    if ss == [] then "" else if |ss| == 1 then Text(ss[0], None) else Text(ss[0], None) + ";" + Joined(ss[1..])
  }

  function Trimmed(ss: seq<seq<Piece>>): seq<string> {
    if ss == [] then [] else
      var t := Strip(KeptText(ss[0]));
      (if t == "" then [] else [t]) + Trimmed(ss[1..])
  }

  lemma {:induction false} StillNoClash(p: Piece, more: string, rest: string)
    requires Proper(p) && !Clash(p, more) && (rest == "" || rest[0] == ';')
    ensures !Clash(p, more + rest)
  {
    assert more == "" ==> more + rest == rest;
  }

  lemma {:induction false} StatementTail(ps: seq<Piece>)
    requires IsStatement(ps) && ps != []
    ensures IsStatement(ps[1..]) && Proper(ps[0]) && !Clash(ps[0], Text(ps[1..], None)) && !ps[0].Semicolon?
  {
  }

  /** Scanning a statement that is followed by a semicolon or by nothing. */
  lemma {:induction false} StatementScan(ps: seq<Piece>, rest: string, buffer: string, out: seq<string>)
    requires IsStatement(ps) && (rest == "" || rest[0] == ';')
    ensures Run(Text(ps, None) + rest, Plain, buffer, out) == Run(rest, Plain, buffer + KeptText(ps), out)
  {
    if ps == [] {
      assert Text(ps, None) + rest == rest && buffer + KeptText(ps) == buffer;
    } else {
      StatementTail(ps);
      var p, more := ps[0], Text(ps[1..], None);
      StillNoClash(p, more, rest);
      SplitFirst(ps, rest, buffer);
      PieceScan(p, more + rest, buffer, out);
      StatementScan(ps[1..], rest, buffer + Kept(p), out);
    }
  }

  lemma {:induction false} SplitFirst(ps: seq<Piece>, rest: string, buffer: string)
    requires ps != []
    ensures Text(ps, None) + rest == Render(ps[0]) + (Text(ps[1..], None) + rest)
    ensures buffer + KeptText(ps) == buffer + Kept(ps[0]) + KeptText(ps[1..])
  {
  }

  lemma {:induction false} FlushThen(out: seq<string>, ss: seq<seq<Piece>>)
    requires ss != []
    ensures Flush(out, KeptText(ss[0])) + Trimmed(ss[1..]) == out + Trimmed(ss)
  {
    FlushTrimmed(out, KeptText(ss[0]), Trimmed(ss[1..]));
  }

  lemma {:induction false} FlushTrimmed(out: seq<string>, text: string, rest: seq<string>)
    ensures Flush(out, text) + rest == out + ((if Strip(text) == "" then [] else [Strip(text)]) + rest)
  {
  }

  lemma {:induction false} CutScan(ps: seq<Piece>, rest: string, out: seq<string>)
    requires IsStatement(ps)
    ensures Run(Text(ps, None) + (";" + rest), Plain, "", out) == Run(rest, Plain, "", Flush(out, KeptText(ps)))
    ensures Run(Text(ps, None), Plain, "", out) == Ok(Flush(out, KeptText(ps)))
  {
    StatementScan(ps, ";" + rest, "", out);
    assert "" + KeptText(ps) == KeptText(ps);
    assert (";" + rest)[1..] == rest;
    StatementScan(ps, "", "", out);
    assert Text(ps, None) + "" == Text(ps, None);
  }

  lemma {:induction false} EmptyScan(out: seq<string>)
    ensures Run("", Plain, "", out) == Ok(out)
  {
  }

  lemma {:induction false} JoinedMore(ss: seq<seq<Piece>>)
    requires |ss| > 1
    ensures Joined(ss) == Text(ss[0], None) + (";" + Joined(ss[1..]))
  {
  }

  lemma {:induction false} JoinStep(ss: seq<seq<Piece>>, out: seq<string>, rest: string)
    requires ss != [] && IsStatement(ss[0]) && rest == Joined(ss[1..])
    ensures Run(Joined(ss), Plain, "", out) == Run(rest, Plain, "", Flush(out, KeptText(ss[0])))
  {
    CutScan(ss[0], rest, out);
    if |ss| == 1 {
      EmptyScan(Flush(out, KeptText(ss[0])));
    } else {
      JoinedMore(ss);
    }
  }

  lemma {:induction false} JoinScan(ss: seq<seq<Piece>>, out: seq<string>)
    requires forall k :: 0 <= k < |ss| ==> IsStatement(ss[k])
    ensures Run(Joined(ss), Plain, "", out) == Ok(out + Trimmed(ss))
  {
    if ss == [] {
      assert out + Trimmed(ss) == out;
    } else {
      JoinStep(ss, out, Joined(ss[1..]));
      JoinScan(ss[1..], Flush(out, KeptText(ss[0])));
      FlushThen(out, ss);
    }
  }

  /** Splitting undoes joining: the statements come back in order, trimmed and with empty ones dropped. */
  lemma {:induction false} SplitUndoesJoin(ss: seq<seq<Piece>>)
    requires forall k :: 0 <= k < |ss| ==> IsStatement(ss[k])
    ensures Run(Joined(ss), Plain, "", []) == Ok(Trimmed(ss))
  {
    JoinScan(ss, []);
    assert [] + Trimmed(ss) == Trimmed(ss);
  }

  /** Without comments, the text kept of a statement is its own text. */
  lemma {:induction false} NothingElided(ps: seq<Piece>)
    requires forall k :: 0 <= k < |ps| ==> ps[k].Other? || ps[k].Quotation?
    ensures KeptText(ps) == Text(ps, None)
  {
    if ps != [] {
      NothingElided(ps[1..]);
    }
  }
}
