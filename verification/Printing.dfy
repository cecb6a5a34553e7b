/** The client's printers for property trees and source listings. Colours are left out; base64
    decoding is library code and enters as a function. */
module Printing {
  import opened Text
  import opened Decimal
  import opened Xml

  // ----- Property trees -----

  datatype Property = Property(
    name: string, kind: string, classname: string, hasChildren: bool, numChildren: int,
    encoding: string, value: string, extName: string, extClassname: string,
    children: seq<Property>)

  type Base64 = string -> string

  function NameOf(p: Property, base64: Base64): string {
    if p.name == "" && p.extName != "" then base64(p.extName) else p.name
  }

  function ClassOf(p: Property, base64: Base64): string {
    if p.classname == "" && p.extClassname != "" then base64(p.extClassname) else p.classname
  }

  predicate IsExpanded(p: Property) {
    p.hasChildren && p.numChildren > 0
  }

  /** What stands behind the name of a property that is not expanded. */
  function ValueText(p: Property, base64: Base64): string {
    var value := if p.encoding == "base64" then base64(p.value) else p.value;
    if p.kind == "uninitialized" || p.kind == "null" then ""
    else if p.kind == "bool" then (if value == "1" then ": true" else ": false")
    else if p.kind == "array" then ": []"
    else if p.kind == "object" then ": {}"
    else ": " + value
  }

  datatype Bracket = Square | Curly

  function BracketOf(p: Property): Bracket {
    if p.kind == "array" then Square else Curly
  }

  /** Printed text, with the brackets of expanded properties kept apart. */
  datatype Piece = Plain(text: string) | Opening(b: Bracket) | Closing(b: Bracket)

  function PieceText(piece: Piece): string {
    match piece
    case Plain(text) => text
    case Opening(Square) => ": [ \n"
    case Opening(Curly) => " { \n"
    case Closing(Square) => "]"
    case Closing(Curly) => "}"
  }

  function Render(pieces: seq<Piece>): string {
    if pieces == [] then "" else PieceText(pieces[0]) + Render(pieces[1..])
  }

  function Header(tid: string): string {
    tid + " | "
  }

  function Title(leader: string, p: Property, base64: Base64): string {
    leader + (p.kind + " " + NameOf(p, base64))
    + if p.kind == "object" then "(" + ClassOf(p, base64) + ")" else ""
  }

  function Pieces(tid: string, leader: string, p: Property, base64: Base64): seq<Piece>
    decreases p, 2
  {
    [Plain(Header(tid) + Title(leader, p, base64))] + BodyPieces(tid, leader, p, base64) + [Plain("\n")]
  }

  function BodyPieces(tid: string, leader: string, p: Property, base64: Base64): seq<Piece>
    decreases p, 1
  {
    if IsExpanded(p) then
      [Opening(BracketOf(p))] + ChildPieces(tid, leader, p, p.children, base64)
      + [Plain(Header(tid) + leader), Closing(BracketOf(p))]
    else [Plain(ValueText(p, base64))]
  }

  /** The first `children` of `p`, one after the other. */
  function ChildPieces(tid: string, leader: string, p: Property, children: seq<Property>, base64: Base64): seq<Piece>
    requires children <= p.children
    decreases p, 0, |children|
  {
    if children == [] then []
    else
      var n := |children| - 1;
      assert children[n] == p.children[n];
      ChildPieces(tid, leader, p, children[..n], base64)
      + [Plain(leader)] + Pieces(tid, leader + "  ", p.children[n], base64)
  }

  function PropertyText(tid: string, leader: string, p: Property, base64: Base64): string {
    Render(Pieces(tid, leader, p, base64))
  }

  lemma Reattach(a: seq<Piece>, b: seq<Piece>)
    requires a != []
    ensures a == [a[0]] + a[1..] && a + b == [a[0]] + (a[1..] + b)
  {
  }

  lemma RenderFirst(first: Piece, rest: seq<Piece>)
    ensures Render([first] + rest) == PieceText(first) + Render(rest)
  {
    assert ([first] + rest)[1..] == rest;
  }

  lemma Regroup(a: string, b: string, c: string)
    ensures (a + b) + c == a + (b + c)
  {
  }

  lemma RenderStep(first: Piece, rest: seq<Piece>, b: seq<Piece>)
    requires Render(rest + b) == Render(rest) + Render(b)
    ensures Render([first] + (rest + b)) == Render([first] + rest) + Render(b)
  {
    RenderFirst(first, rest + b);
    RenderFirst(first, rest);
    Regroup(PieceText(first), Render(rest), Render(b));
  }

  lemma {:induction false} RenderConcat(a: seq<Piece>, b: seq<Piece>)
    ensures Render(a + b) == Render(a) + Render(b)
  {
    if a == [] {
      assert a + b == b;
    } else {
      RenderConcat(a[1..], b);
      RenderStep(a[0], a[1..], b);
      Reattach(a, b);
    }
  }

  lemma RenderOne(piece: Piece)
    ensures Render([piece]) == PieceText(piece)
  {
    assert [piece][1..] == [] && PieceText(piece) + "" == PieceText(piece);
  }

  /** One more child. */
  lemma {:induction false} ChildText(tid: string, leader: string, p: Property, i: nat, base64: Base64)
    requires i < |p.children|
    ensures Render(ChildPieces(tid, leader, p, p.children[..i + 1], base64))
      == Render(ChildPieces(tid, leader, p, p.children[..i], base64))
         + (leader + PropertyText(tid, leader + "  ", p.children[i], base64))
  {
    var before := ChildPieces(tid, leader, p, p.children[..i], base64);
    var child := Pieces(tid, leader + "  ", p.children[i], base64);
    assert p.children[..i + 1][..i] == p.children[..i];
    RenderConcat(before + [Plain(leader)], child);
    RenderConcat(before, [Plain(leader)]);
    RenderOne(Plain(leader));
    Regroup(Render(before), leader, Render(child));
  }

  lemma BodyText(tid: string, leader: string, p: Property, base64: Base64)
    ensures Render(BodyPieces(tid, leader, p, base64)) ==
      if IsExpanded(p) then
        PieceText(Opening(BracketOf(p))) + Render(ChildPieces(tid, leader, p, p.children, base64))
        + (Header(tid) + leader) + PieceText(Closing(BracketOf(p)))
      else ValueText(p, base64)
  {
    if IsExpanded(p) {
      var open, close := Opening(BracketOf(p)), Closing(BracketOf(p));
      var last := Plain(Header(tid) + leader);
      var children := ChildPieces(tid, leader, p, p.children, base64);
      RenderConcat([open] + children, [last, close]);
      RenderConcat([open], children);
      assert [last, close] == [last] + [close];
      RenderConcat([last], [close]);
      RenderOne(open);
      RenderOne(last);
      RenderOne(close);
      Regroup(PieceText(open) + Render(children), Header(tid) + leader, PieceText(close));
    } else {
      RenderOne(Plain(ValueText(p, base64)));
    }
  }

  /** The text of a property from the texts of its parts. */
  lemma PropertyParts(tid: string, leader: string, p: Property, base64: Base64)
    ensures var body :=
        if IsExpanded(p) then
          PieceText(Opening(BracketOf(p))) + Render(ChildPieces(tid, leader, p, p.children, base64))
          + (Header(tid) + leader) + PieceText(Closing(BracketOf(p)))
        else ValueText(p, base64);
      PropertyText(tid, leader, p, base64) == (Header(tid) + Title(leader, p, base64)) + body + "\n"
  {
    var first := Plain(Header(tid) + Title(leader, p, base64));
    var body := BodyPieces(tid, leader, p, base64);
    RenderConcat([first] + body, [Plain("\n")]);
    RenderConcat([first], body);
    RenderOne(first);
    RenderOne(Plain("\n"));
    BodyText(tid, leader, p, base64);
  }

  lemma Regroup5(a: string, b: string, c: string, d: string, e: string)
    ensures (((a + b) + c) + d) + e == a + (b + c + d + e)
  {
  }

  /** The line of a property without children to show, on its own fields. */
  lemma LeafText(tid: string, leader: string, p: Property, base64: Base64)
    requires !(p.hasChildren && p.numChildren > 0)
    ensures var name := if p.name == "" && p.extName != "" then base64(p.extName) else p.name;
      var classname := if p.classname == "" && p.extClassname != "" then base64(p.extClassname) else p.classname;
      var value := if p.encoding == "base64" then base64(p.value) else p.value;
      var title := leader + (p.kind + " " + name) + if p.kind == "object" then "(" + classname + ")" else "";
      var shown :=
        if p.kind == "uninitialized" || p.kind == "null" then ""
        else if p.kind == "bool" then if value == "1" then ": true" else ": false"
        else if p.kind == "array" then ": []"
        else if p.kind == "object" then ": {}"
        else ": " + value;
      PropertyText(tid, leader, p, base64) == ((tid + " | ") + title) + shown + "\n"
  {
    PropertyParts(tid, leader, p, base64);
  }

  /** The lines of a property with children: its title and an opening bracket, the children, and a closing
      bracket of the same kind. */
  lemma ExpandedText(tid: string, leader: string, p: Property, base64: Base64)
    requires p.hasChildren && p.numChildren > 0
    ensures var name := if p.name == "" && p.extName != "" then base64(p.extName) else p.name;
      var classname := if p.classname == "" && p.extClassname != "" then base64(p.extClassname) else p.classname;
      var title := leader + (p.kind + " " + name) + if p.kind == "object" then "(" + classname + ")" else "";
      var children := Render(ChildPieces(tid, leader, p, p.children, base64));
      PropertyText(tid, leader, p, base64) ==
        ((tid + " | ") + title)
        + (if p.kind == "array" then ": [ \n" + children + ((tid + " | ") + leader) + "]"
           else " { \n" + children + ((tid + " | ") + leader) + "}")
        + "\n"
  {
    PropertyParts(tid, leader, p, base64);
  }

  /** `formatProperty`. */
  method FormatProperty(tid: string, leader: string, p: Property, base64: Base64) returns (r: string)
    ensures r == PropertyText(tid, leader, p, base64)
    decreases p
  {
    var header := tid + " | ";
    var content := Title(leader, p, base64);
    ghost var body;
    if IsExpanded(p) {
      var inside := FormatChildren(tid, leader, p, base64);
      body := PieceText(Opening(BracketOf(p))) + inside + (header + leader) + PieceText(Closing(BracketOf(p)));
      Regroup5(content, PieceText(Opening(BracketOf(p))), inside, header + leader, PieceText(Closing(BracketOf(p))));
      content := content + (if p.kind == "array" then ": [ \n" else " { \n");
      content := content + inside;
      content := content + (header + leader);
      content := content + (if p.kind == "array" then "]" else "}");
    } else {
      body := ValueText(p, base64);
      content := content + ValueText(p, base64);
    }
    PropertyParts(tid, leader, p, base64);
    Regroup(header, Title(leader, p, base64), body);
    r := header + content + "\n";
  }

  /** The loop over the children, as what it adds to the text. */
  method FormatChildren(tid: string, leader: string, p: Property, base64: Base64) returns (r: string)
    ensures r == Render(ChildPieces(tid, leader, p, p.children, base64))
    decreases p, 0
  {
    r := "";
    for i := 0 to |p.children|
      invariant r == Render(ChildPieces(tid, leader, p, p.children[..i], base64))
    {
      var child := FormatProperty(tid, leader + "  ", p.children[i], base64);
      ChildText(tid, leader, p, i, base64);
      r := r + (leader + child);
    }
    assert p.children[..|p.children|] == p.children;
  }

  // ----- The brackets nest -----

  /** Reads pieces with a stack of open brackets; `None` if a bracket closes that is not the last one
      opened. */
  function Nest(pieces: seq<Piece>, stack: seq<Bracket>): Option<seq<Bracket>>
    decreases |pieces|
  {
    if pieces == [] then Some(stack)
    else
      var first := pieces[0];
      if first.Plain? then Nest(pieces[1..], stack)
      else if first.Opening? then Nest(pieces[1..], [first.b] + stack)
      else if stack != [] && stack[0] == first.b then Nest(pieces[1..], stack[1..])
      else None
  }

  lemma NestFirst(first: Piece, rest: seq<Piece>, stack: seq<Bracket>)
    ensures Nest([first] + rest, stack) ==
      if first.Plain? then Nest(rest, stack)
      else if first.Opening? then Nest(rest, [first.b] + stack)
      else if stack != [] && stack[0] == first.b then Nest(rest, stack[1..])
      else None
  {
    assert ([first] + rest)[1..] == rest;
  }

  /** The pieces of a property leave the stack as they found it. */
  lemma {:induction false} PropertyNests(tid: string, leader: string, p: Property, base64: Base64,
                                         rest: seq<Piece>, stack: seq<Bracket>)
    ensures Nest(Pieces(tid, leader, p, base64) + rest, stack) == Nest(rest, stack)
    decreases p, 2
  {
    var first := Plain(Header(tid) + Title(leader, p, base64));
    var body := BodyPieces(tid, leader, p, base64);
    var tail := [Plain("\n")] + rest;
    assert Pieces(tid, leader, p, base64) + rest == [first] + (body + tail);
    NestFirst(first, body + tail, stack);
    BodyNests(tid, leader, p, base64, tail, stack);
    NestFirst(Plain("\n"), rest, stack);
  }

  lemma {:induction false} ChildrenNest(tid: string, leader: string, p: Property, children: seq<Property>,
                                        base64: Base64, rest: seq<Piece>, stack: seq<Bracket>)
    requires children <= p.children
    ensures Nest(ChildPieces(tid, leader, p, children, base64) + rest, stack) == Nest(rest, stack)
    decreases p, 0, |children|
  {
    if children == [] {
      assert ChildPieces(tid, leader, p, children, base64) + rest == rest;
    } else {
      var n := |children| - 1;
      assert children[n] == p.children[n];
      var before := ChildPieces(tid, leader, p, children[..n], base64);
      var child := Pieces(tid, leader + "  ", p.children[n], base64);
      assert ChildPieces(tid, leader, p, children, base64) + rest == before + ([Plain(leader)] + (child + rest));
      ChildrenNest(tid, leader, p, children[..n], base64, [Plain(leader)] + (child + rest), stack);
      NestFirst(Plain(leader), child + rest, stack);
      PropertyNests(tid, leader + "  ", p.children[n], base64, rest, stack);
    }
  }

  lemma {:induction false} BodyNests(tid: string, leader: string, p: Property, base64: Base64,
                                     tail: seq<Piece>, stack: seq<Bracket>)
    ensures Nest(BodyPieces(tid, leader, p, base64) + tail, stack) == Nest(tail, stack)
    decreases p, 1
  {
    var body := BodyPieces(tid, leader, p, base64);
    if IsExpanded(p) {
      var b := BracketOf(p);
      var children := ChildPieces(tid, leader, p, p.children, base64);
      var last := Plain(Header(tid) + leader);
      assert body + tail == [Opening(b)] + (children + ([last] + ([Closing(b)] + tail)));
      NestFirst(Opening(b), children + ([last] + ([Closing(b)] + tail)), stack);
      ChildrenNest(tid, leader, p, p.children, base64, [last] + ([Closing(b)] + tail), [b] + stack);
      NestFirst(last, [Closing(b)] + tail, [b] + stack);
      NestFirst(Closing(b), tail, [b] + stack);
      assert ([b] + stack)[1..] == stack;
    } else {
      NestFirst(Plain(ValueText(p, base64)), tail, stack);
    }
  }

  /** For every finite tree the brackets printed for expanded properties are well nested, with
      matching kinds. */
  lemma BracketsAreNested(tid: string, leader: string, p: Property, base64: Base64)
    ensures Nest(Pieces(tid, leader, p, base64), []) == Some([])
    ensures PropertyText(tid, leader, p, base64) == Render(Pieces(tid, leader, p, base64))
  {
    PropertyNests(tid, leader, p, base64, [], []);
    assert Pieces(tid, leader, p, base64) + [] == Pieces(tid, leader, p, base64);
  }

  // ----- One line per node, and one more per expanded node -----

  function Newlines(s: string): nat {
    if s == "" then 0 else (if s[0] == '\n' then 1 else 0) + Newlines(s[1..])
  }

  lemma {:induction false} NewlinesConcat(a: string, b: string)
    ensures Newlines(a + b) == Newlines(a) + Newlines(b)
  {
    if a == "" {
      assert a + b == b;
    } else {
      NewlinesConcat(a[1..], b);
      assert (a + b)[1..] == a[1..] + b;
    }
  }

  lemma {:induction false} NoNewlines(s: string)
    ensures Newlines(s) == 0 <==> '\n' !in s
  {
    if s != "" {
      NoNewlines(s[1..]);
      assert s == [s[0]] + s[1..];
    }
  }

  /** The nodes that are printed: children count only where their parent is expanded. */
  function Nodes(p: Property): nat
    decreases p, 1
  {
    1 + if IsExpanded(p) then ChildNodes(p, p.children) else 0
  }

  function ChildNodes(p: Property, children: seq<Property>): nat
    requires children <= p.children
    decreases p, 0, |children|
  {
    if children == [] then 0
    else
      var n := |children| - 1;
      assert children[n] == p.children[n];
      ChildNodes(p, children[..n]) + Nodes(p.children[n])
  }

  function Expanded(p: Property): nat
    decreases p, 1
  {
    if IsExpanded(p) then 1 + ChildExpanded(p, p.children) else 0
  }

  function ChildExpanded(p: Property, children: seq<Property>): nat
    requires children <= p.children
    decreases p, 0, |children|
  {
    if children == [] then 0
    else
      var n := |children| - 1;
      assert children[n] == p.children[n];
      ChildExpanded(p, children[..n]) + Expanded(p.children[n])
  }

  /** Newlines that come from the data: kinds, names, class names and values. */
  function OwnNewlines(p: Property, base64: Base64): nat {
    Newlines(p.kind) + Newlines(NameOf(p, base64))
    + (if p.kind == "object" then Newlines(ClassOf(p, base64)) else 0)
    + if IsExpanded(p) then 0 else Newlines(ValueText(p, base64))
  }

  function DataNewlines(p: Property, base64: Base64): nat
    decreases p, 1
  {
    OwnNewlines(p, base64) + if IsExpanded(p) then ChildDataNewlines(p, p.children, base64) else 0
  }

  function ChildDataNewlines(p: Property, children: seq<Property>, base64: Base64): nat
    requires children <= p.children
    decreases p, 0, |children|
  {
    if children == [] then 0
    else
      var n := |children| - 1;
      assert children[n] == p.children[n];
      ChildDataNewlines(p, children[..n], base64) + DataNewlines(p.children[n], base64)
  }

  lemma TitleNewlines(tid: string, leader: string, p: Property, base64: Base64)
    requires '\n' !in tid && '\n' !in leader
    ensures Newlines(Header(tid) + Title(leader, p, base64)) + (if IsExpanded(p) then 0 else Newlines(ValueText(p, base64)))
      == OwnNewlines(p, base64)
    ensures Newlines(Header(tid) + leader) == 0
  {
    NoNewlines(Header(tid));
    NoNewlines(leader);
    NewlinesConcat(Header(tid), leader);
    NewlinesConcat(Header(tid), Title(leader, p, base64));
    var name := p.kind + " " + NameOf(p, base64);
    NewlinesConcat(p.kind + " ", NameOf(p, base64));
    NewlinesConcat(p.kind, " ");
    NewlinesConcat(leader, name);
    if p.kind == "object" {
      var class_ := ClassOf(p, base64);
      NewlinesConcat("(", class_);
      NewlinesConcat("(" + class_, ")");
      NewlinesConcat(leader + name, "(" + class_ + ")");
    } else {
      assert leader + name + "" == leader + name;
    }
  }

  lemma FiveNewlines(a: string, b: string, c: string, d: string, e: string)
    ensures Newlines(a + (b + c + d + e) + "\n")
      == Newlines(a) + Newlines(b) + Newlines(c) + Newlines(d) + Newlines(e) + 1
  {
    NewlinesConcat(a + (b + c + d + e), "\n");
    NewlinesConcat(a, b + c + d + e);
    NewlinesConcat(b + c + d, e);
    NewlinesConcat(b + c, d);
    NewlinesConcat(b, c);
  }

  lemma BracketNewlines(b: Bracket)
    ensures Newlines(PieceText(Opening(b))) == 1 && Newlines(PieceText(Closing(b))) == 0
  {
    NewlinesConcat(": [ ", "\n");
    NewlinesConcat(" { ", "\n");
    assert ": [ " + "\n" == ": [ \n" && " { " + "\n" == " { \n";
    NoNewlines(": [ ");
    NoNewlines(" { ");
    NoNewlines("]");
    NoNewlines("}");
  }

  /** The number of line ends printed is the number of nodes plus that of expanded nodes, plus the
      newlines in the data itself. */
  lemma {:induction false} PropertyLines(tid: string, leader: string, p: Property, base64: Base64)
    requires '\n' !in tid && '\n' !in leader
    ensures Newlines(PropertyText(tid, leader, p, base64)) == Nodes(p) + Expanded(p) + DataNewlines(p, base64)
    decreases p, 1
  {
    var title := Header(tid) + Title(leader, p, base64);
    PropertyParts(tid, leader, p, base64);
    TitleNewlines(tid, leader, p, base64);
    if IsExpanded(p) {
      var open, close := PieceText(Opening(BracketOf(p))), PieceText(Closing(BracketOf(p)));
      var children := Render(ChildPieces(tid, leader, p, p.children, base64));
      var last := Header(tid) + leader;
      ChildLines(tid, leader, p, p.children, base64);
      BracketNewlines(BracketOf(p));
      FiveNewlines(title, open, children, last, close);
    } else {
      NewlinesConcat(title, ValueText(p, base64));
      NewlinesConcat(title + ValueText(p, base64), "\n");
    }
  }

  lemma {:induction false} ChildLines(tid: string, leader: string, p: Property, children: seq<Property>, base64: Base64)
    requires '\n' !in tid && '\n' !in leader && children <= p.children
    ensures Newlines(Render(ChildPieces(tid, leader, p, children, base64)))
      == ChildNodes(p, children) + ChildExpanded(p, children) + ChildDataNewlines(p, children, base64)
    decreases p, 0, |children|
  {
    if children != [] {
      var n := |children| - 1;
      assert children == p.children[..n + 1] && children[..n] == p.children[..n];
      ChildLines(tid, leader, p, children[..n], base64);
      PropertyLines(tid, leader + "  ", p.children[n], base64);
      ChildText(tid, leader, p, n, base64);
      var child := PropertyText(tid, leader + "  ", p.children[n], base64);
      NewlinesConcat(Render(ChildPieces(tid, leader, p, children[..n], base64)), leader + child);
      NewlinesConcat(leader, child);
      NoNewlines(leader);
    }
  }

  // ----- Source listings -----

  predicate IsTrailing(c: char) {
    c == ' ' || c == '\n'
  }

  /** The verb `%4d`. */
  function Pad4(n: int): string {
    var s := Itoa(n);
    seq(if |s| < 4 then 4 - |s| else 0, _ => ' ') + s
  }

  /** A number is padded with spaces in front, to four characters. */
  lemma Pad4Is(n: int)
    ensures var text, pad := Itoa(n), |Pad4(n)| - |Itoa(n)|;
      && |Pad4(n)| == (if |text| < 4 then 4 else |text|)
      && Pad4(n)[pad..] == text
      && forall i | 0 <= i < pad :: Pad4(n)[i] == ' '
  {
  }

  function NumberedLine(n: int, line: string): string {
    Pad4(n) + " " + line
  }

  function Listing(lines: seq<string>, start: int): string {
    if lines == [] then ""
    else
      var n := |lines| - 1;
      Listing(lines[..n], start) + NumberedLine(start + n, lines[n]) + "\n"
  }

  /** The value of a response, decoded. */
  function ValueOf(m: Message, base64: Base64): string
    requires m.Response?
  {
    if m.encoding == "base64" then base64(m.value) else m.value
  }

  function SourceText(m: Message, start: int, base64: Base64): string
    requires m.Response?
  {
    if ValueOf(m, base64) == "" then m.tid + " | " + "The result was empty" + "\n"
    else Listing(Split(TrimRight(ValueOf(m, base64), IsTrailing), '\n'), start)
  }

  /** The loop of `formatSource`. */
  method FormatLines(lines: seq<string>, start: int) returns (content: string)
    ensures content == Listing(lines, start)
  {
    content := "";
    for i := 0 to |lines|
      invariant content == Listing(lines[..i], start)
    {
      assert lines[..i + 1][..i] == lines[..i];
      content := content + (Pad4(i + start) + " " + lines[i]) + "\n";
    }
    assert lines[..|lines|] == lines;
  }

  /** `formatSource`. */
  method FormatSource(m: Message, start: int, base64: Base64) returns (content: string)
    requires m.Response?
    ensures content == SourceText(m, start, base64)
  {
    var value := m.value;
    if m.encoding == "base64" {
      value := base64(value);
    }
    if |value| == 0 {
      return m.tid + " | " + "The result was empty" + "\n";
    }
    content := FormatLines(Split(TrimRight(value, IsTrailing), '\n'), start);
  }

  function Numbered(lines: seq<string>, start: int): seq<string> {
    seq(|lines|, i requires 0 <= i < |lines| => NumberedLine(start + i, lines[i]))
  }

  /** `line` added to the last part. */
  function WithLast(parts: seq<string>, line: string): seq<string>
    requires |parts| >= 1
  {
    parts[..|parts| - 1] + [parts[|parts| - 1] + line]
  }

  lemma LastAfterEmpty(rest: seq<string>, line: string)
    requires |rest| >= 1
    ensures [""] + WithLast(rest, line) == WithLast([""] + rest, line)
  {
    assert ([""] + rest)[..|rest|] == [""] + rest[..|rest| - 1];
  }

  function CharOnFirst(c: char, parts: seq<string>): seq<string>
    requires |parts| >= 1
  {
    [[c] + parts[0]] + parts[1..]
  }

  lemma LastAfterChar(c: char, rest: seq<string>, line: string)
    requires |rest| >= 1
    ensures CharOnFirst(c, WithLast(rest, line)) == WithLast(CharOnFirst(c, rest), line)
  {
    var k := |rest| - 1;
    if k == 0 {
      assert [c] + (rest[0] + line) == ([c] + rest[0]) + line;
    } else {
      assert CharOnFirst(c, rest)[..k] == [[c] + rest[0]] + rest[..k][1..];
      assert WithLast(rest, line)[1..] == rest[1..k] + [rest[k] + line];
    }
  }

  /** Text without a newline goes to the last part. */
  lemma {:induction false} AppendToSplit(s: string, line: string)
    requires '\n' !in line
    ensures Split(s + line, '\n') == WithLast(Split(s, '\n'), line)
  {
    if s == "" {
      assert s + line == line;
      SplitFree(line, '\n');
    } else {
      AppendToSplit(s[1..], line);
      assert (s + line)[1..] == s[1..] + line;
      var rest := Split(s[1..], '\n');
      if s[0] == '\n' {
        LastAfterEmpty(rest, line);
      } else {
        LastAfterChar(s[0], rest, line);
      }
    }
  }

  lemma OneMoreLine(before: string, printed: seq<string>, line: string)
    requires Split(before, '\n') == printed + [""] && '\n' !in line
    ensures Split(before + line + "\n", '\n') == (printed + [line]) + [""]
  {
    AppendToSplit(before, line);
    assert "" + line == line;
    assert Split(before + line, '\n') == printed + [line];
    SplitAppend(before + line, "", '\n');
    assert before + line + "\n" == (before + line) + ['\n'] + "";
  }

  lemma ItoaHasNoNewline(n: int)
    ensures '\n' !in Itoa(n)
  {
  }

  lemma NumberedSnoc(lines: seq<string>, start: int)
    requires lines != []
    ensures var n := |lines| - 1;
      Numbered(lines, start) == Numbered(lines[..n], start) + [NumberedLine(start + n, lines[n])]
  {
  }

  lemma {:induction false} ListingLines(lines: seq<string>, start: int)
    requires AllFree(lines, '\n')
    ensures Split(Listing(lines, start), '\n') == Numbered(lines, start) + [""]
  {
    if lines == [] {
      assert Listing(lines, start) == "" && Numbered(lines, start) == [];
    } else {
      var n := |lines| - 1;
      var before, line := Listing(lines[..n], start), NumberedLine(start + n, lines[n]);
      ListingLines(lines[..n], start);
      ItoaHasNoNewline(start + n);
      assert '\n' !in line;
      OneMoreLine(before, Numbered(lines[..n], start), line);
      NumberedSnoc(lines, start);
    }
  }

  /** `text` has one line for each line of the right-trimmed source, with consecutive numbers from
      `start`; and those lines joined by newlines are that source. */
  ghost predicate Lists(text: string, value: string, start: int) {
    var source := TrimRight(value, IsTrailing);
    var lines, printed := Split(source, '\n'), Split(text, '\n');
    && |printed| == |lines| + 1 && printed[|lines|] == ""
    && (forall i | 0 <= i < |lines| :: printed[i] == NumberedLine(start + i, lines[i]))
    && Join(lines, '\n') == source
  }

  /** What is printed for a source that is not empty. */
  lemma SourceIsListed(m: Message, start: int, base64: Base64)
    requires m.Response? && ValueOf(m, base64) != ""
    ensures Lists(SourceText(m, start, base64), ValueOf(m, base64), start)
  {
    var source := TrimRight(ValueOf(m, base64), IsTrailing);
    SplitIsFree(source, '\n');
    JoinSplit(source, '\n');
    ListingLines(Split(source, '\n'), start);
  }

  /** What a listing is: of the value, cut after its last character that is no space and no newline, each
      line with its number and a space in front. */
  lemma ListsMeans(text: string, value: string, start: int) returns (n: nat)
    requires Lists(text, value, start)
    ensures n <= |value| && (forall k | n <= k < |value| :: value[k] == ' ' || value[k] == '\n')
    ensures n > 0 ==> value[n - 1] != ' ' && value[n - 1] != '\n'
    ensures var lines, printed := Split(value[..n], '\n'), Split(text, '\n');
      && |printed| == |lines| + 1 && printed[|lines|] == ""
      && (forall i | 0 <= i < |lines| :: printed[i] == Pad4(start + i) + " " + lines[i])
      && Join(lines, '\n') == value[..n]
  {
    TrimRightCuts(value, IsTrailing);
    n := |TrimRight(value, IsTrailing)|;
    assert value[..n] == TrimRight(value, IsTrailing);
    forall k | n <= k < |value| ensures value[k] == ' ' || value[k] == '\n' {
      assert IsTrailing(value[k]);
    }
  }

  /** The value that is listed is that of the response, decoded if it says so. */
  lemma ValueIs(m: Message, base64: Base64)
    requires m.Response?
    ensures m.encoding == "base64" ==> ValueOf(m, base64) == base64(m.value)
    ensures m.encoding != "base64" ==> ValueOf(m, base64) == m.value
  {
  }
}
