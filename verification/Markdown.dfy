/** Rendering a conversation as Markdown (cdp.go: rawText, extractText, convToMarkdown). */
module Markdown {
  import opened Text

  /** A raw JSON field, by what the two decoding attempts of rawText make of it. JSON null decodes
  as the empty string. */
  datatype Raw = NoValue | JsonString(s: string) | JsonItems(texts: seq<string>) | JsonOther(source: string)

  datatype Block = Block(kind: string, text: string, name: string, input: string, content: Raw)

  datatype Message = Message(sender: string, createdAt: string, text: string, content: seq<Block>)

  datatype FullConv = FullConv(name: string, createdAt: string, updatedAt: string, model: string,
                               messages: seq<Message>)

  datatype ConvSummary = ConvSummary(uuid: string, name: string, createdAt: string, updatedAt: string)

  /** A response body, with what JSON decoding makes of it as a conversation and as a list page. */
  datatype Body = Body(text: string, conv: Option<FullConv>, page: Option<seq<ConvSummary>>)

  // ---- specification ----

  function Join(parts: seq<string>, sep: string): (s: string) {
    if parts == [] then ""
    else if |parts| == 1 then parts[0]
    else Join(parts[..|parts| - 1], sep) + sep + parts[|parts| - 1]
  }

  function NonEmpty(texts: seq<string>): (r: seq<string>) {
    if texts == [] then []
    else NonEmpty(texts[..|texts| - 1]) + if texts[|texts| - 1] != "" then [texts[|texts| - 1]] else []
  }

  function RawText(r: Raw): (res: string) {
    match r
    case NoValue => ""
    case JsonString(s) => s
    case JsonItems(texts) => Join(NonEmpty(texts), " ")
    case JsonOther(source) => source
  }

  /** What one content block contributes to the transcript. */
  function BlockPart(b: Block): (s: string) {
    if b.kind == "text" then b.text
    else if b.kind == "tool_use" then "\n```tool: " + b.name + "\n" + b.input + "\n```\n"
    else if b.kind == "tool_result" then "\n```result\n" + RawText(b.content) + "\n```\n"
    else
      var body := if RawText(b.content) == "" then b.text else RawText(b.content);
      "\n```" + b.kind + "\n" + body + "\n```\n"
  }

  function BlockParts(bs: seq<Block>): (r: seq<string>) {
    seq(|bs|, i requires 0 <= i < |bs| => BlockPart(bs[i]))
  }

  function MessageText(m: Message): (s: string) {
    if m.content == [] then m.text else Join(BlockParts(m.content), "\n")
  }

  function MessageSection(m: Message): (s: string) {
    "## " + (if m.sender == "human" then "Human" else "Claude") + " [" + Trunc(m.createdAt, 19) + "]\n\n"
    + if MessageText(m) == "" then "" else MessageText(m) + "\n\n"
  }

  function Sections(ms: seq<Message>): (s: string) {
    if ms == [] then "" else Sections(ms[..|ms| - 1]) + MessageSection(ms[|ms| - 1])
  }

  /** The title on one line: CR and LF become blanks. */
  function Flatten(s: string): (f: string)
    ensures '\n' !in f && '\r' !in f
  {
    seq(|s|, i requires 0 <= i < |s| => if s[i] == '\r' || s[i] == '\n' then ' ' else s[i])
  }

  function Title(name: string): (t: string)
    ensures '\n' !in t
  {
    if TrimSpace(Flatten(name)) == "" then "Untitled" else Flatten(name)
  }

  function Head(c: FullConv): (s: string) {
    "# " + Title(c.name) + "\n\n- Created: " + Trunc(c.createdAt, 19) + "\n- Updated: "
    + Trunc(c.updatedAt, 19) + "\n- Model: " + c.model + "\n\n---\n\n"
  }

  function Render(c: FullConv): (s: string) {
    Head(c) + Sections(c.messages)
  }

  /** A decoded body with none of the server-set fields is an API error, not a conversation. */
  predicate IsEmptyConv(c: FullConv) {
    c.createdAt == "" && c.updatedAt == "" && c.messages == []
  }

  predicate StartsWith(s: string, p: string) {
    p <= s
  }

  /** convToMarkdown; "" means that nothing may be written. */
  function MarkdownOf(b: Body): (s: string) {
    match b.conv
    case None => if StartsWith(TrimSpace(b.text), "{") then b.text else ""
    case Some(c) => if IsEmptyConv(c) then "" else Render(c)
  }

  // ---- the builder loops ----

  method BuildRawText(r: Raw) returns (s: string)
    ensures s == RawText(r)
  {
    match r {
      case NoValue => s := "";
      case JsonString(v) => s := v;
      case JsonItems(texts) =>
        var p: seq<string> := [];
        for i := 0 to |texts|
          invariant p == NonEmpty(texts[..i])
        {
          assert texts[..i + 1][..i] == texts[..i];
          if texts[i] != "" {
            p := p + [texts[i]];
          }
        }
        assert texts[..|texts|] == texts;
        s := Join(p, " ");
      case JsonOther(source) => s := source;
    }
  }

  method ExtractText(m: Message) returns (s: string)
    ensures s == MessageText(m)
  {
    if |m.content| == 0 {
      return m.text;
    }
    var parts: seq<string> := [];
    for i := 0 to |m.content|
      invariant parts == BlockParts(m.content[..i])
    {
      var b := m.content[i];
      var part;
      if b.kind == "text" {
        part := b.text;
      } else if b.kind == "tool_use" {
        part := "\n```tool: " + b.name + "\n" + b.input + "\n```\n";
      } else if b.kind == "tool_result" {
        var body := BuildRawText(b.content);
        part := "\n```result\n" + body + "\n```\n";
      } else {
        var body := BuildRawText(b.content);
        if body == "" {
          body := b.text;
        }
        part := "\n```" + b.kind + "\n" + body + "\n```\n";
      }
      parts := parts + [part];
    }
    assert m.content[..|m.content|] == m.content;
    s := Join(parts, "\n");
  }

  lemma AppendSection(head: string, ms: seq<Message>, m: Message)
    ensures head + Sections(ms + [m]) == head + Sections(ms) + MessageSection(m)
  {
    assert (ms + [m])[..|ms|] == ms;
  }

  lemma NoSections(ms: seq<Message>, b: string)
    ensures b == b + Sections(ms[..0])
  {
  }

  method WriteHead(c: FullConv) returns (b: string)
    ensures b == Head(c)
  {
    var title := Flatten(c.name);
    if TrimSpace(title) == "" {
      title := "Untitled";
    }
    b := "# " + title + "\n\n- Created: " + Trunc(c.createdAt, 19) + "\n- Updated: "
    + Trunc(c.updatedAt, 19) + "\n- Model: " + c.model + "\n\n---\n\n";
  }

  method WriteMessage(m: Message) returns (section: string)
    ensures section == MessageSection(m)
  {
    var speaker := "Claude";
    if m.sender == "human" {
      speaker := "Human";
    }
    section := "## " + speaker + " [" + Trunc(m.createdAt, 19) + "]\n\n";
    var txt := ExtractText(m);
    if txt != "" {
      section := section + (txt + "\n\n");
    }
  }

  method WriteMessages(head: string, ms: seq<Message>) returns (b: string)
    ensures b == head + Sections(ms)
  {
    hide MessageSection, Sections;
    b := head;
    NoSections(ms, b);
    for i := 0 to |ms|
      invariant b == head + Sections(ms[..i])
    {
      assert ms[..i + 1] == ms[..i] + [ms[i]];
      var section := WriteMessage(ms[i]);
      AppendSection(head, ms[..i], ms[i]);
      b := b + section;
    }
    assert ms[..|ms|] == ms;
  }

  method ConvToMarkdown(raw: Body) returns (md: string)
    ensures md == MarkdownOf(raw)
  {
    hide Head, Sections, TrimSpace;
    if raw.conv.None? {
      return if StartsWith(TrimSpace(raw.text), "{") then raw.text else "";
    }
    var c := raw.conv.value;
    if c.createdAt == "" && c.updatedAt == "" && |c.messages| == 0 {
      return "";
    }
    var b := WriteHead(c);
    md := WriteMessages(b, c.messages);
  }

  // ---- what is written, and what is kept ----

  lemma HeadStarts(c: FullConv)
    ensures |Head(c)| >= 2 && Head(c)[..2] == "# "
  {
  }

  /** Nothing but a rendered conversation or a body that opens with a brace is ever written. */
  lemma WrittenShape(b: Body)
    requires MarkdownOf(b) != ""
    ensures StartsWith(MarkdownOf(b), "# ") || StartsWith(TrimSpace(MarkdownOf(b)), "{")
    ensures b.conv.Some? ==> MarkdownOf(b) == Render(b.conv.value) && !IsEmptyConv(b.conv.value)
    ensures b.conv.None? ==> MarkdownOf(b) == b.text
  {
    if b.conv.Some? {
      var c := b.conv.value;
      HeadStarts(c);
      hide Head;
      assert Render(c)[..2] == Head(c)[..2];
    }
  }

  lemma {:induction false} PartInJoin(parts: seq<string>, sep: string, i: nat)
    requires i < |parts|
    ensures Occurs(parts[i], Join(parts, sep))
  {
    var n := |parts|;
    var j := Join(parts, sep);
    if n == 1 {
      assert OccursAt(parts[0], j, 0);
    } else if i == n - 1 {
      assert OccursAt(parts[i], j, |j| - |parts[i]|);
    } else {
      PartInJoin(parts[..n - 1], sep, i);
      OccursInPart(parts[i], "", Join(parts[..n - 1], sep), sep + parts[n - 1]);
      assert j == "" + Join(parts[..n - 1], sep) + (sep + parts[n - 1]);
    }
  }

  lemma OccursLeft(w: string, s: string, b: string)
    requires Occurs(w, s)
    ensures Occurs(w, s + b)
  {
    OccursInPart(w, "", s, b);
    assert "" + s + b == s + b;
  }

  lemma OccursLast(a: string, w: string)
    ensures Occurs(w, a + w)
  {
    assert OccursAt(w, a + w, |a|);
  }

  lemma {:induction false} SectionInSections(ms: seq<Message>, i: nat)
    requires i < |ms|
    ensures Occurs(MessageSection(ms[i]), Sections(ms))
  {
    hide MessageSection, Occurs;
    var n := |ms|;
    var rest, last := Sections(ms[..n - 1]), MessageSection(ms[n - 1]);
    if i == n - 1 {
      OccursLast(rest, last);
    } else {
      SectionInSections(ms[..n - 1], i);
      OccursLeft(MessageSection(ms[i]), rest, last);
    }
  }

  lemma OccursTransitive(u: string, v: string, w: string)
    requires Occurs(u, v) && Occurs(v, w)
    ensures Occurs(u, w)
  {
    var k :| 0 <= k <= |w| && OccursAt(v, w, k);
    OccursInPart(u, w[..k], v, w[k + |v|..]);
    assert w == w[..k] + v + w[k + |v|..];
  }

  /** The archive keeps every content block of every message as one uninterrupted passage. */
  lemma EveryBlockIsKept(c: FullConv, i: nat, j: nat)
    requires i < |c.messages| && j < |c.messages[i].content|
    ensures Occurs(BlockPart(c.messages[i].content[j]), Render(c))
  {
    var m := c.messages[i];
    var part := BlockPart(m.content[j]);
    var parts := BlockParts(m.content);
    var header := "## " + (if m.sender == "human" then "Human" else "Claude") + " [" + Trunc(m.createdAt, 19) + "]\n\n";
    PartInJoin(parts, "\n", j);
    if MessageText(m) == "" {
      assert part == "";
      assert OccursAt(part, Render(c), 0);
    } else {
      OccursInPart(part, header, MessageText(m), "\n\n");
      assert MessageSection(m) == header + MessageText(m) + "\n\n";
      SectionInSections(c.messages, i);
      OccursTransitive(part, MessageSection(m), Sections(c.messages));
      OccursInPart(part, Head(c), Sections(c.messages), "");
      assert Render(c) == Head(c) + Sections(c.messages) + "";
    }
  }

  /** The blocks whose `text` field the archive drops, exactly: tool calls, tool results, and blocks of
  an unknown kind that carry raw content as well. */
  predicate TextIsDropped(b: Block) {
    b.kind == "tool_use" || b.kind == "tool_result" || (b.kind != "text" && RawText(b.content) != "")
  }

  lemma TextSurvivesExactly(b: Block)
    ensures (forall t: string :: BlockPart(b.(text := t)) == BlockPart(b)) <==> TextIsDropped(b)
  {
    if !TextIsDropped(b) {
      var long := b.text + "x";
      assert |BlockPart(b.(text := long))| == |BlockPart(b)| + 1;
    }
  }
}
