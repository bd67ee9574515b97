/** The assembly-module builder: two append-only sections, data items and
    text items, rendered into one assembly source text. */
module AsmBuilder {

  /** `<name> <size> <values>`: a label, a size directive and the literal
      initializer, all opaque text. */
  datatype DataSectionItem = DataSectionItem(name: string, size: string, values: string)

  datatype TextSectionItem = Label(name: string) | Instruction(inst: string)

  class DataSection {
    var items: seq<DataSectionItem>

    constructor ()
      ensures items == []
    {
      items := [];
    }

    method Append(name: string, size: string, values: string)
      modifies this
      ensures items == old(items) + [DataSectionItem(name, size, values)]
    {
      items := items + [DataSectionItem(name, size, values)];
    }
  }

  class TextSection {
    var items: seq<TextSectionItem>

    constructor ()
      ensures items == []
    {
      items := [];
    }

    method Label(name: string)
      modifies this
      ensures items == old(items) + [TextSectionItem.Label(name)]
    {
      items := items + [TextSectionItem.Label(name)];
    }

    method Inst(inst: string)
      modifies this
      ensures items == old(items) + [Instruction(inst)]
    {
      items := items + [Instruction(inst)];
    }

    /** Splices another section's items after this one's, in order. */
    method Extend(other: TextSection)
      modifies this
      ensures items == old(items) + old(other.items)
    {
      items := items + other.items;
    }
  }

  const Header: string := "bits 64\nglobal _start\n\nsection .data\n"
  const TextHeader: string := "\nsection .text\n"

  function DataLine(item: DataSectionItem): string
  {
    "    " + item.name + " " + item.size + " " + item.values + "\n"
  }

  function TextLine(item: TextSectionItem): string
  {
    match item
    case Label(name) => name + ":\n"
    case Instruction(inst) => "    " + inst + "\n"
  }

  /** One line per item, in item order. */
  function Lines<T>(items: seq<T>, line: T -> string): string
  {
    if items == [] then "" else Lines(items[..|items| - 1], line) + line(items[|items| - 1])
  }

  function RenderData(items: seq<DataSectionItem>): string
  {
    Lines(items, DataLine)
  }

  function RenderText(items: seq<TextSectionItem>): string
  {
    Lines(items, TextLine)
  }

  /** The whole module text for the given sections. */
  function Render(data: seq<DataSectionItem>, text: seq<TextSectionItem>): (r: string)
    ensures Header <= r && |r| >= |Header| + |TextHeader|
  {
    Header + RenderData(data) + TextHeader + RenderText(text)
  }

  class Asm {
    var data: DataSection
    var text: TextSection

    constructor (data: DataSection, text: TextSection)
      ensures this.data == data && this.text == text
    {
      this.data := data;
      this.text := text;
    }

    /** Builds the text line by line; reads the sections and changes nothing. */
    method Stringify() returns (result: string)
      ensures result == Render(data.items, text.items)
    {
      result := Header;
      var dataItems := data.items;
      for i := 0 to |dataItems|
        invariant result == Header + RenderData(dataItems[..i])
      {
        LinesSnoc(dataItems, i, DataLine);
        result := result + DataLine(dataItems[i]);
      }
      assert dataItems[..|dataItems|] == dataItems;
      result := result + TextHeader;
      ghost var prefix := result;
      var textItems := text.items;
      for i := 0 to |textItems|
        invariant result == prefix + RenderText(textItems[..i])
      {
        LinesSnoc(textItems, i, TextLine);
        result := result + TextLine(textItems[i]);
      }
      assert textItems[..|textItems|] == textItems;
    }
  }

  // -----------------------------------------------------------------------
  // Properties of the rendering

  /** Rendering line by line is a homomorphism from item sequences to
      strings. */
  lemma {:induction false} LinesConcat<T>(a: seq<T>, b: seq<T>, line: T -> string)
    ensures Lines(a + b, line) == Lines(a, line) + Lines(b, line)
    decreases |b|
  {
    if b == [] {
      assert a + b == a;
    } else {
      var b', last := b[..|b| - 1], b[|b| - 1];
      assert (a + b)[..|a + b| - 1] == a + b';
      assert (a + b)[|a + b| - 1] == last;
      LinesConcat(a, b', line);
    }
  }

  /** One more item, one more line at the end. */
  lemma LinesSnoc<T>(items: seq<T>, i: nat, line: T -> string)
    requires i < |items|
    ensures Lines(items[..i + 1], line) == Lines(items[..i], line) + line(items[i])
  {
    assert items[..i + 1][..i] == items[..i];
  }

  lemma LinesSingle<T>(x: T, line: T -> string)
    ensures Lines([x], line) == line(x)
  {
  }

  /** Item k renders as the k-th piece, between the rendering of the items
      before it and of those after it. */
  lemma LinesAt<T>(items: seq<T>, k: nat, line: T -> string)
    requires k < |items|
    ensures Lines(items, line) == Lines(items[..k], line) + line(items[k]) + Lines(items[k + 1..], line)
  {
    var front, back := items[..k + 1], items[k + 1..];
    assert items == front + back;
    LinesConcat(front, back, line);
    assert front[..|front| - 1] == items[..k];
  }

  /** A label line has no indent; an instruction line is indented by four
      spaces. */
  lemma RenderTextSingle(item: TextSectionItem)
    ensures item.Label? ==> RenderText([item]) == item.name + ":\n"
    ensures item.Instruction? ==> RenderText([item]) == "    " + item.inst + "\n"
  {
    LinesSingle(item, TextLine);
  }

  /** An empty module renders as the two fixed headers only. */
  lemma RenderEmpty()
    ensures Render([], []) == "bits 64\nglobal _start\n\nsection .data\n\nsection .text\n"
  {
  }

  /** Appending a data item inserts its line just before the text header;
      the rest of the output is unchanged. */
  lemma RenderAfterAppend(data: seq<DataSectionItem>, text: seq<TextSectionItem>, item: DataSectionItem)
    ensures Render(data + [item], text) == Header + RenderData(data) + DataLine(item) + TextHeader + RenderText(text)
  {
  }

  /** Extending the text section appends the other section's rendering
      to the output. */
  lemma RenderAfterExtend(data: seq<DataSectionItem>, text: seq<TextSectionItem>, other: seq<TextSectionItem>)
    ensures Render(data, text + other) == Render(data, text) + RenderText(other)
  {
    LinesConcat(text, other, TextLine);
  }

  lemma RenderOneDataTwoText(item: DataSectionItem, first: TextSectionItem, second: TextSectionItem)
    ensures Render([item], [first, second])
            == Header + DataLine(item) + TextHeader + TextLine(first) + TextLine(second)
  {
    assert [first, second] == [first] + [second];
    LinesSingle(item, DataLine);
    LinesConcat([first], [second], TextLine);
    LinesSingle(first, TextLine);
    LinesSingle(second, TextLine);
  }

  /** The module of one data item and one labelled instruction. */
  lemma RenderExample()
    ensures Render([DataSectionItem("msg", "db", "\"hi\",0")],
                   [TextSectionItem.Label("_start"), Instruction("mov rax, 1")])
            == Header + "    msg db \"hi\",0\n" + TextHeader + "_start:\n" + "    mov rax, 1\n"
  {
    RenderOneDataTwoText(DataSectionItem("msg", "db", "\"hi\",0"),
                         TextSectionItem.Label("_start"), Instruction("mov rax, 1"));
  }

  /** The same module, built through the section methods. */
  method ExampleModule() returns (s: string)
    ensures s == Header + "    msg db \"hi\",0\n" + TextHeader + "_start:\n" + "    mov rax, 1\n"
  {
    var data := new DataSection();
    data.Append("msg", "db", "\"hi\",0");
    var text := new TextSection();
    text.Label("_start");
    text.Inst("mov rax, 1");
    var asm := new Asm(data, text);
    s := asm.Stringify();
    assert data.items == [DataSectionItem("msg", "db", "\"hi\",0")];
    assert text.items == [TextSectionItem.Label("_start"), Instruction("mov rax, 1")];
    RenderExample();
  }
}
