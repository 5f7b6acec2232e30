/** A configuration file as a concrete syntax tree: the text of a document is
    what its tree flattens to, so every byte belongs to exactly one place. */
module Kdl {
  import opened Options

  /** A value as written (`repr`), the string it stands for if it is one, the
      `key` of a property, and the blanks that lead up to it. */
  datatype Entry = Entry(lead: string, key: Option<string>, repr: string, str: Option<string>)

  /** A name as written, its entries, and a block of children if it has braces. */
  datatype Node = Node(name: string, written: string, entries: seq<Entry>, lead: string, body: Option<Doc>)

  /** Everything between two nodes (blanks, line ends, `;`, comments) is the gap
      before the second; `end` is what follows the last. */
  datatype Item = Item(gap: string, node: Node)
  datatype Doc = Doc(items: seq<Item>, end: string)

  function EntryText(e: Entry): string {
    e.lead + KeyText(e) + e.repr
  }

  function KeyText(e: Entry): string {
    match e.key
    case None => ""
    case Some(k) => k + "="
  }

  function EntriesText(es: seq<Entry>): string {
    if es == [] then "" else EntryText(es[0]) + EntriesText(es[1..])
  }

  function NodeText(n: Node): string {
    match n.body
    case None => n.written + EntriesText(n.entries)
    case Some(d) => n.written + EntriesText(n.entries) + n.lead + "{" + DocText(d) + "}"
  }

  function ItemsText(items: seq<Item>): string {
    if items == [] then "" else items[0].gap + NodeText(items[0].node) + ItemsText(items[1..])
  }

  function DocText(d: Doc): string {
    ItemsText(d.items) + d.end
  }

  // --------------------------------------------------------- line by line

  /** Unicode white space. */
  predicate White(c: char) {
    var n := c as int;
    || 9 <= n <= 13 || n == 32 || n == 0x85 || n == 0xA0 || n == 0x1680 || 0x2000 <= n <= 0x200A
    || n == 0x2028 || n == 0x2029 || n == 0x202F || n == 0x205F || n == 0x3000
  }

  predicate AllWhite(s: string) {
    forall i :: 0 <= i < |s| ==> White(s[i])
  }

  function TrimStart(s: string): (r: string)
    ensures |r| <= |s|
  {
    if s != "" && White(s[0]) then TrimStart(s[1..]) else s
  }

  /** `trim_start_matches([' ', '\t'])` */
  function TrimBlanks(s: string): (r: string)
    ensures |r| <= |s|
  {
    if s != "" && (s[0] == ' ' || s[0] == '\t') then TrimBlanks(s[1..]) else s
  }

  function TrimEnd(s: string): (r: string)
    ensures |r| <= |s|
  {
    if s != "" && White(s[|s| - 1]) then TrimEnd(s[..|s| - 1]) else s
  }

  /** Where the line `at` is on starts. */
  function LineStart(text: string, at: nat): (r: nat)
    requires at <= |text|
    ensures r <= at
  {
    if at == 0 || text[at - 1] == '\n' then at else LineStart(text, at - 1)
  }

  /** The line end at or after `at`; the end of the text if there is none. */
  function LineStop(text: string, at: nat): (r: nat)
    requires at <= |text|
    ensures at <= r <= |text|
    decreases |text| - at
  {
    if at == |text| || text[at] == '\n' then at else LineStop(text, at + 1)
  }

  /** What is left of a line after blanks and one `;`. */
  function Strip(t: string): string {
    var a := TrimStart(t);
    if a != "" && a[0] == ';' then TrimStart(a[1..]) else a
  }

  /** Nothing, or a comment, follows on the line. */
  predicate Trivial(t: string) {
    Strip(t) == "" || "//" <= Strip(t)
  }

  predicate TailIsTrivial(text: string, at: nat)
    requires at <= |text|
  {
    Trivial(text[at..LineStop(text, at)])
  }

  datatype Edit = Edit(start: nat, stop: nat, with: string)

  /** A node's bytes, given its span, which may take in blanks after it. */
  function NodeStop(text: string, start: nat, len: nat): nat
    requires start + len <= |text|
  {
    start + |TrimEnd(text[start..start + len])|
  }

  /** The bytes to delete with the node at `[s, e)`: its whole line or lines
      when it has them to itself, else the node and a `;` right after it. */
  function Removal(text: string, s: nat, e: nat): Edit
    requires s <= e <= |text|
  {
    var ls := LineStart(text, s);
    if AllWhite(text[ls..s]) && TailIsTrivial(text, e) then
      var le := LineStop(text, e);
      Edit(ls, if le < |text| then le + 1 else le, "")
    else
      var after := TrimBlanks(text[e..]);
      Edit(s, if after != "" && after[0] == ';' then |text| - |after| + 1 else e, "")
  }

  // ------------------------------------------ the same, seen from the gaps

  predicate HasLine(g: string) {
    '\n' in g
  }

  function FirstLine(g: string): (r: nat)
    requires HasLine(g)
    ensures r < |g| && g[r] == '\n' && '\n' !in g[..r]
  {
    if g[0] == '\n' then 0 else FirstLine(g[1..]) + 1
  }

  function LastLine(g: string): (r: nat)
    requires HasLine(g)
    ensures r < |g| && g[r] == '\n' && '\n' !in g[r + 1..]
  {
    if g[|g| - 1] == '\n' then |g| - 1 else LastLine(g[..|g| - 1])
  }

  /** The line the gap ends on holds nothing but blanks before the node; `bof`
      says the text starts with the gap. */
  predicate HeadBlank(g: string, bof: bool) {
    if HasLine(g) then AllWhite(g[LastLine(g) + 1..]) else bof && AllWhite(g)
  }

  /** The line the gap starts on holds nothing after the node; `eof` says the
      text ends with the gap. */
  predicate TailTrivial(g: string, eof: bool) {
    if HasLine(g) then Trivial(g[..FirstLine(g)]) else eof && Trivial(g)
  }

  function HeadStart(g: string): (r: nat)
    ensures r <= |g|
  {
    if HasLine(g) then LastLine(g) + 1 else 0
  }

  function TailStop(g: string): (r: nat)
    ensures r <= |g|
  {
    if HasLine(g) then FirstLine(g) + 1 else |g|
  }

  function SemiStop(g: string): (r: nat)
    ensures r <= |g|
  {
    var after := TrimBlanks(g);
    if after != "" && after[0] == ';' then |g| - |after| + 1 else 0
  }

  /** How much of the gaps around it goes with a node: what stays of the gap
      before, and what goes of the gap after. */
  function CutBefore(g: string, h: string, bof: bool, eof: bool): (r: nat)
    ensures r <= |g|
  {
    if HeadBlank(g, bof) && TailTrivial(h, eof) then HeadStart(g) else |g|
  }

  function CutAfter(g: string, h: string, bof: bool, eof: bool): (r: nat)
    ensures r <= |h|
  {
    if HeadBlank(g, bof) && TailTrivial(h, eof) then TailStop(h) else SemiStop(h)
  }

  // ------------------------------------------------- what the parser grants

  /** A character a node can start with, or the `}` that closes its block. */
  predicate Starter(c: char) {
    !White(c) && c != ';' && c != '/'
  }

  predicate NodeOk(n: Node) {
    && n.written != "" && Starter(n.written[0])
    && !White(NodeText(n)[|NodeText(n)| - 1])
    && (forall i :: 0 <= i < |n.entries| ==> n.entries[i].repr != "")
    && (n.body.Some? ==> DocOk(n.body.value))
  }

  predicate ItemsOk(items: seq<Item>) {
    items == [] || (NodeOk(items[0].node) && ItemsOk(items[1..]))
  }

  predicate DocOk(d: Doc) {
    ItemsOk(d.items)
  }

  // --------------------------------------- comments that end before the line

  /** After a node there is a comment, and something follows the comment that no
      `\n` parts from it: KDL ends a comment at other line ends too (carriage
      return, next line, form feed, line and paragraph separator), the editor
      looks for `\n` only. */
  predicate Exposed(h: string, eof: bool) {
    !eof && !HasLine(h) && "//" <= Strip(h)
  }

  /** In a file that ends all its lines with `\n` no gap is exposed. `top` for
      the whole file, whose end nothing follows. */
  predicate Lined(d: Doc, top: bool) {
    ItemsLined(d.items) && !Exposed(d.end, top)
  }

  predicate ItemsLined(items: seq<Item>) {
    items == [] || (!Exposed(items[0].gap, false) && NodeLined(items[0].node) && ItemsLined(items[1..]))
  }

  predicate NodeLined(n: Node) {
    n.body.Some? ==> Lined(n.body.value, false)
  }

  /** The removal of a node between two gaps stays in them: its line is not
      taken for one it has to itself. */
  predicate Fine(g: string, h: string, bof: bool, eof: bool) {
    !(HeadBlank(g, bof) && Exposed(h, eof))
  }

  // ------------------------------- a removal stays within the node's gaps

  lemma {:induction false} LineStartIs(text: string, at: nat, ls: nat)
    requires ls <= at <= |text| && (ls == 0 || text[ls - 1] == '\n')
    requires forall i :: ls <= i < at ==> text[i] != '\n'
    ensures LineStart(text, at) == ls
    decreases at
  {
    if at > ls {
      LineStartIs(text, at - 1, ls);
    }
  }

  lemma {:induction false} LineStartBelow(text: string, at: nat, k: nat)
    requires k < at <= |text|
    requires forall i :: k <= i < at ==> text[i] != '\n'
    ensures LineStart(text, at) <= k
    decreases at
  {
    if at > k + 1 {
      LineStartBelow(text, at - 1, k);
    }
  }

  lemma {:induction false} LineStopIs(text: string, at: nat, le: nat)
    requires at <= le <= |text| && (le == |text| || text[le] == '\n')
    requires forall i :: at <= i < le ==> text[i] != '\n'
    ensures LineStop(text, at) == le
    decreases le - at
  {
    if at < le {
      LineStopIs(text, at + 1, le);
    }
  }

  lemma {:induction false} LineStopAbove(text: string, at: nat, k: nat)
    requires at <= k <= |text|
    requires forall i :: at <= i < k ==> text[i] != '\n'
    ensures k <= LineStop(text, at)
    decreases k - at
  {
    if at < k {
      LineStopAbove(text, at + 1, k);
    }
  }

  /** Before `x`: nothing, or a character that is not white. */
  predicate Closed(text: string, x: nat)
    requires x <= |text|
  {
    x == 0 || !White(text[x - 1])
  }

  /** At `y`: nothing, or a node or `}`. */
  predicate Follows(text: string, y: nat)
    requires y <= |text|
  {
    y == |text| || Starter(text[y])
  }

  lemma HeadInText(text: string, x: nat, s: nat, g: string)
    requires x <= s <= |text| && text[x..s] == g && Closed(text, x)
    ensures AllWhite(text[LineStart(text, s)..s]) <==> HeadBlank(g, x == 0)
    ensures HeadBlank(g, x == 0) ==> LineStart(text, s) == x + HeadStart(g)
  {
    if HasLine(g) {
      HeadWithLine(text, x, s, g);
    } else {
      HeadWithoutLine(text, x, s, g);
    }
  }

  lemma HeadWithLine(text: string, x: nat, s: nat, g: string)
    requires x <= s <= |text| && text[x..s] == g && HasLine(g)
    ensures LineStart(text, s) == x + LastLine(g) + 1 && text[LineStart(text, s)..s] == g[LastLine(g) + 1..]
  {
    var k := LastLine(g);
    var last := g[k + 1..];
    assert text[x + k] == g[k];
    assert text[x + k + 1..s] == last;
    forall i | x + k + 1 <= i < s ensures text[i] != '\n' {
      assert text[i] == last[i - x - k - 1];
    }
    LineStartIs(text, s, x + k + 1);
  }

  lemma HeadWithoutLine(text: string, x: nat, s: nat, g: string)
    requires x <= s <= |text| && text[x..s] == g && !HasLine(g) && Closed(text, x)
    ensures if x == 0 then LineStart(text, s) == 0 && text[0..s] == g else !AllWhite(text[LineStart(text, s)..s])
  {
    forall i | x <= i < s ensures text[i] != '\n' {
      assert text[i] == g[i - x];
    }
    if x == 0 {
      LineStartIs(text, s, 0);
    } else {
      assert White('\n');
      LineStartBelow(text, s, x - 1);
      var ls := LineStart(text, s);
      assert text[ls..s][x - 1 - ls] == text[x - 1];
    }
  }

  /** An exposed gap makes the editor read on past it. */
  lemma TailInText(text: string, e: nat, y: nat, h: string)
    requires e <= y <= |text| && text[e..y] == h && Follows(text, y)
    ensures TailIsTrivial(text, e) <==> TailTrivial(h, y == |text|) || Exposed(h, y == |text|)
    ensures TailTrivial(h, y == |text|) ==>
              LineStop(text, e) + (if LineStop(text, e) < |text| then 1 else 0) == e + TailStop(h)
    ensures Exposed(h, y == |text|) ==> LineStop(text, e) > y
  {
    assert forall i :: e <= i < y ==> text[i] == h[i - e];
    if HasLine(h) {
      var k := e + FirstLine(h);
      forall i | e <= i < k ensures text[i] != '\n' {
        assert text[i] == h[..k - e][i - e];
      }
      LineStopIs(text, e, k);
      assert text[e..k] == h[..k - e];
    } else if y == |text| {
      LineStopIs(text, e, y);
    } else {
      assert White('\n');
      LineStopAbove(text, e, y + 1);
      var le := LineStop(text, e);
      var u := text[y..le];
      assert text[e..le] == h + u && u[0] == text[y];
      TrivialAppend(h, u);
    }
  }

  lemma {:induction false} TrimStartAppend(g: string, u: string)
    requires u != "" && !White(u[0])
    ensures TrimStart(g + u) == TrimStart(g) + u
    decreases |g|
  {
    if g == "" {
      assert g + u == u;
    } else {
      assert (g + u)[0] == g[0] && (g + u)[1..] == g[1..] + u;
      if White(g[0]) {
        TrimStartAppend(g[1..], u);
      }
    }
  }

  lemma TrivialAppend(g: string, u: string)
    requires u != "" && Starter(u[0])
    ensures Trivial(g + u) <==> "//" <= Strip(g)
  {
    var a := TrimStart(g);
    TrimStartAppend(g, u);
    if a != "" && a[0] == ';' {
      assert (a + u)[1..] == a[1..] + u;
      TrimStartAppend(a[1..], u);
    } else if a == "" {
      assert a + u == u;
    }
    assert Strip(g + u) == Strip(g) + u;
    var b := Strip(g);
    if b == "" {
      assert (b + u)[0] == u[0];
    } else if |b| == 1 {
      assert (b + u)[1] == u[0];
    } else {
      assert (b + u)[..2] == b[..2];
    }
  }

  lemma {:induction false} TrimBlanksAppend(h: string, q: string)
    requires q == "" || !White(q[0])
    ensures TrimBlanks(h + q) == TrimBlanks(h) + q
    decreases |h|
  {
    if h == "" {
      assert h + q == q;
      assert White(' ') && White('\t');
    } else {
      assert (h + q)[0] == h[0] && (h + q)[1..] == h[1..] + q;
      if h[0] == ' ' || h[0] == '\t' {
        TrimBlanksAppend(h[1..], q);
      }
    }
  }

  lemma SemiInText(text: string, e: nat, y: nat, h: string)
    requires e <= y <= |text| && text[e..y] == h && Follows(text, y)
    ensures var after := TrimBlanks(text[e..]);
            (if after != "" && after[0] == ';' then |text| - |after| + 1 else e) == e + SemiStop(h)
  {
    assert text[e..] == h + text[y..];
    TrimBlanksAppend(h, text[y..]);
  }

  /** What a removal takes, told from the gaps on both sides: it stays within
      them exactly when it is fine, and takes what follows when it is not. */
  lemma {:induction false} RemovalInGaps(text: string, x: nat, s: nat, g: string, e: nat, y: nat, h: string,
                                         bof: bool, eof: bool)
    requires x <= s <= e <= y <= |text| && text[x..s] == g && text[e..y] == h
    requires Closed(text, x) && Follows(text, y)
    requires bof == (x == 0) && eof == (y == |text|)
    ensures Fine(g, h, bof, eof) <==>
              Removal(text, s, e) == Edit(x + CutBefore(g, h, bof, eof), e + CutAfter(g, h, bof, eof), "")
    ensures Fine(g, h, bof, eof) <==> Removal(text, s, e).stop <= y
    ensures !Fine(g, h, bof, eof) ==> Removal(text, s, e).start <= s
  {
    HeadInText(text, x, s, g);
    TailInText(text, e, y, h);
    SemiInText(text, e, y, h);
    var le := LineStop(text, e) + if LineStop(text, e) < |text| then 1 else 0;
    RemovalIs(text, s, e, HeadBlank(g, bof), x + HeadStart(g), TailTrivial(h, eof) || Exposed(h, eof), le,
      e + SemiStop(h));
    assert TailTrivial(h, eof) ==> !Exposed(h, eof);
  }

  lemma RemovalIs(text: string, s: nat, e: nat, blank: bool, ls: nat, trivial: bool, le: nat, semi: nat)
    requires s <= e <= |text|
    requires AllWhite(text[LineStart(text, s)..s]) <==> blank
    requires blank ==> LineStart(text, s) == ls
    requires TailIsTrivial(text, e) <==> trivial
    requires trivial ==> LineStop(text, e) + (if LineStop(text, e) < |text| then 1 else 0) == le
    requires var after := TrimBlanks(text[e..]);
             (if after != "" && after[0] == ';' then |text| - |after| + 1 else e) == semi
    ensures Removal(text, s, e) == if blank && trivial then Edit(ls, le, "") else Edit(s, semi, "")
  {
  }

  lemma {:induction false} TrimEndKeeps(c: string, blanks: string)
    requires c != "" && !White(c[|c| - 1]) && AllWhite(blanks)
    ensures TrimEnd(c + blanks) == c
    decreases |blanks|
  {
    if blanks == "" {
      assert c + blanks == c;
    } else {
      var t := c + blanks;
      assert t[|t| - 1] == blanks[|blanks| - 1] && t[..|t| - 1] == c + blanks[..|blanks| - 1];
      TrimEndKeeps(c, blanks[..|blanks| - 1]);
    }
  }

  /** Blanks a span takes in after the node do not move its end. */
  lemma NodeStopIs(text: string, start: nat, c: string, blanks: nat)
    requires c != "" && !White(c[|c| - 1])
    requires start + |c| + blanks <= |text| && text[start..start + |c|] == c
    requires AllWhite(text[start + |c|..start + |c| + blanks])
    ensures NodeStop(text, start, |c| + blanks) == start + |c|
  {
    var tail := text[start + |c|..start + |c| + blanks];
    assert text[start..start + |c| + blanks] == c + tail;
    TrimEndKeeps(c, tail);
  }
}
