/** What an exported conversation looks like, told from the outside: which text stands where. */
module Transcript {
  import opened Text
  import opened Markdown

  // ---- parts in a row ----

  /** s is the parts in order, part i at at[i], with sep between each two and nothing else. */
  ghost predicate StandInRow(parts: seq<string>, sep: string, s: string, at: seq<nat>) {
    && |at| == |parts| + 1 && at[0] == 0
    && (forall i :: 0 <= i < |parts| ==> OccursAt(parts[i], s, at[i]))
    && (forall i :: 0 <= i < |parts| - 1 ==>
          at[i + 1] == at[i] + |parts[i]| + |sep| && OccursAt(sep, s, at[i] + |parts[i]|))
    && at[|parts|] == |s| == if parts == [] then 0 else at[|parts| - 1] + |parts[|parts| - 1]|
  }

  lemma StaysAt(w: string, s: string, b: string, i: int)
    requires OccursAt(w, s, i)
    ensures OccursAt(w, s + b, i)
  {
    assert (s + b)[i..i + |w|] == s[i..i + |w|];
  }

  lemma MiddleStands(a: string, w: string, b: string)
    ensures OccursAt(w, a + w + b, |a|)
  {
    assert (a + w + b)[|a|..|a| + |w|] == w;
  }

  lemma LastInRow(parts: seq<string>, last: string, sep: string, s: string, at: seq<nat>)
    requires parts != [] && |at| == |parts| + 1 && StandInRow(parts, sep, s, at)
    ensures StandInRow(parts + [last], sep, s + sep + last, at[..|parts|] + [|s| + |sep|, |s| + |sep| + |last|])
  {
    hide OccursAt;
    var n := |parts|;
    var parts', s', at' := parts + [last], s + sep + last, at[..n] + [|s| + |sep|, |s| + |sep| + |last|];
    BothStand(s, sep, last);
    forall i | 0 <= i < n ensures OccursAt(parts[i], s', at[i]) {
      Assoc(s, sep, last);
      StaysAt(parts[i], s, sep + last, at[i]);
    }
    forall i | 0 <= i < n - 1 ensures OccursAt(sep, s', at[i] + |parts[i]|) {
      Assoc(s, sep, last);
      StaysAt(sep, s, sep + last, at[i] + |parts[i]|);
    }
    assert forall i :: 0 <= i < n ==> parts'[i] == parts[i] && at'[i] == at[i];
    assert parts'[n] == last && at'[n] == |s| + |sep| && at'[n + 1] == |s'|;
  }

  lemma BothStand(s: string, sep: string, last: string)
    ensures OccursAt(sep, s + sep + last, |s|) && OccursAt(last, s + sep + last, |s| + |sep|)
  {
    MiddleStands(s, sep, last);
    MiddleStands(s + sep, last, "");
    assert s + sep + last + "" == s + sep + last;
  }

  lemma FewStandInRow(parts: seq<string>, sep: string)
    requires |parts| <= 1
    ensures StandInRow(parts, sep, Join(parts, sep), if parts == [] then [0] else [0, |parts[0]|])
  {
    if parts != [] {
      MiddleStands("", parts[0], "");
      assert "" + parts[0] + "" == parts[0];
    }
  }

  lemma {:induction false} JoinStandsInRow(parts: seq<string>, sep: string) returns (at: seq<nat>)
    ensures |at| == |parts| + 1 && StandInRow(parts, sep, Join(parts, sep), at)
  {
    hide OccursAt, StandInRow;
    if |parts| <= 1 {
      at := if parts == [] then [0] else [0, |parts[0]|];
      FewStandInRow(parts, sep);
    } else {
      var front, last := parts[..|parts| - 1], parts[|parts| - 1];
      var s := Join(front, sep);
      at := JoinStandsInRow(front, sep);
      LastInRow(front, last, sep, s, at);
      at := at[..|front|] + [|s| + |sep|, |s| + |sep| + |last|];
      assert front + [last] == parts;
    }
  }

  // ---- one block ----

  ghost predicate IsRow(parts: seq<string>, sep: string, s: string) {
    exists at :: StandInRow(parts, sep, s, at)
  }

  ghost predicate IsNonEmptyOf(texts: seq<string>, kept: seq<string>) {
    exists at :: IsFiltered(texts, IsNotEmpty, kept, at)
  }

  predicate IsNotEmpty(t: string) {
    t != ""
  }

  /** What the raw content of a block says: nothing, a text, the non-empty ones of several texts with a blank between
  them, or JSON as it came. */
  ghost predicate IsRawText(r: Raw, s: string) {
    match r
    case NoValue => s == ""
    case JsonString(v) => s == v
    case JsonItems(texts) =>
      exists kept :: IsNonEmptyOf(texts, kept) && IsRow(kept, " ", s)
    case JsonOther(source) => s == source
  }

  lemma FrontAndLast(texts: seq<string>)
    requires texts != []
    ensures texts[..|texts| - 1] + [texts[|texts| - 1]] == texts
  {
  }

  lemma NonEmptyGrows(front: seq<string>, last: string)
    ensures NonEmpty(front + [last]) == if IsNotEmpty(last) then NonEmpty(front) + [last] else NonEmpty(front)
    ensures NonEmpty([]) == []
  {
    assert (front + [last])[..|front|] == front;
    assert NonEmpty(front) + [] == NonEmpty(front);
  }

  lemma {:induction false} NonEmptyIsFiltered(texts: seq<string>) returns (of: seq<nat>)
    ensures IsFiltered(texts, IsNotEmpty, NonEmpty(texts), of)
  {
    hide NonEmpty, IsFiltered, IsNotEmpty;
    if texts == [] {
      of := [];
      NonEmptyGrows([], "");
      FilterNothing(IsNotEmpty);
    } else {
      var front, last := texts[..|texts| - 1], texts[|texts| - 1];
      FrontAndLast(texts);
      of := NonEmptyIsFiltered(front);
      FilterOneMore(front, IsNotEmpty, NonEmpty(front), of, last);
      NonEmptyGrows(front, last);
      if IsNotEmpty(last) {
        of := of + [|front|];
      }
    }
  }

  lemma RawTextIsRaw(r: Raw)
    ensures IsRawText(r, RawText(r))
  {
    if r.JsonItems? {
      hide StandInRow, IsFiltered, Join, NonEmpty;
      var of := NonEmptyIsFiltered(r.texts);
      var at := JoinStandsInRow(NonEmpty(r.texts), " ");
      assert IsNonEmptyOf(r.texts, NonEmpty(r.texts)) && IsRow(NonEmpty(r.texts), " ", RawText(r));
    }
  }

  /** A fenced passage. */
  function Fence(info: string, body: string): (s: string) {
    "\n```" + info + "\n" + (body + "\n```\n")
  }

  /** A text block is its text, a tool call its name and its input, a result its raw content, and anything else its
  kind and its raw content, or its text where that is empty. */
  ghost predicate IsBlock(b: Block, s: string) {
    if b.kind == "text" then s == b.text
    else if b.kind == "tool_use" then s == Fence("tool: " + b.name, b.input)
    else exists raw ::
      && IsRawText(b.content, raw)
      && s == if b.kind == "tool_result" then Fence("result", raw)
              else Fence(b.kind, if raw == "" then b.text else raw)
  }

  lemma BlockPartIsBlock(b: Block)
    ensures IsBlock(b, BlockPart(b))
  {
    hide RawText, IsRawText;
    RawTextIsRaw(b.content);
    var raw := RawText(b.content);
    if b.kind == "tool_use" {
      assert BlockPart(b) == Fence("tool: " + b.name, b.input);
    } else if b.kind == "tool_result" {
      assert BlockPart(b) == Fence("result", raw);
    } else if b.kind != "text" {
      assert BlockPart(b) == Fence(b.kind, if raw == "" then b.text else raw);
    }
  }

  // ---- one message ----

  /** Without blocks, the message's own text; else its blocks in order, one to a line or more. */
  ghost predicate IsMessageText(m: Message, s: string) {
    if m.content == [] then s == m.text
    else exists parts ::
      && |parts| == |m.content|
      && (forall i :: 0 <= i < |parts| ==> IsBlock(m.content[i], parts[i]))
      && IsRow(parts, "\n", s)
  }

  ghost predicate IsSection(m: Message, s: string) {
    exists text ::
      && IsMessageText(m, text)
      && s == (if m.sender == "human" then "## Human [" else "## Claude [") + Trunc(m.createdAt, 19) + "]\n\n"
              + if text == "" then "" else text + "\n\n"
  }

  lemma MessageTextIsText(m: Message)
    ensures IsMessageText(m, MessageText(m))
  {
    hide StandInRow, IsBlock, BlockPart;
    if m.content != [] {
      var parts := BlockParts(m.content);
      var at := JoinStandsInRow(parts, "\n");
      forall i | 0 <= i < |parts| ensures IsBlock(m.content[i], parts[i]) {
        BlockPartIsBlock(m.content[i]);
      }
    }
  }

  lemma SectionIsSection(m: Message)
    ensures IsSection(m, MessageSection(m))
  {
    hide MessageText, IsMessageText, Trunc;
    MessageTextIsText(m);
    var text := MessageText(m);
    assert "## " + "Human" + " [" == "## Human [" && "## " + "Claude" + " [" == "## Claude [";
  }

  // ---- the whole export ----

  /** The name on one line, or a stand-in for a blank one. */
  ghost predicate IsTitle(name: string, t: string) {
    exists line: string ::
      && |line| == |name|
      && (forall i :: 0 <= i < |name| ==> line[i] == if name[i] in "\r\n" then ' ' else name[i])
      && t == if forall i :: 0 <= i < |line| ==> IsSpace(line[i]) then "Untitled" else line
  }

  ghost predicate IsHead(c: FullConv, s: string) {
    exists title ::
      && IsTitle(c.name, title)
      && s == "# " + title + "\n\n- Created: " + Trunc(c.createdAt, 19) + "\n- Updated: "
              + Trunc(c.updatedAt, 19) + "\n- Model: " + c.model + "\n\n---\n\n"
  }

  ghost predicate IsTranscript(c: FullConv, s: string) {
    exists head, sections ::
      && IsHead(c, head)
      && AreSections(c.messages, sections)
      && IsRow([head] + sections, "", s)
  }

  ghost predicate AreSections(ms: seq<Message>, sections: seq<string>) {
    |sections| == |ms| && forall i :: 0 <= i < |ms| ==> IsSection(ms[i], sections[i])
  }

  lemma TitleIsTitle(name: string)
    ensures IsTitle(name, Title(name))
  {
    hide TrimSpace, IsSpace;
    BlankIsTrimmed(Flatten(name));
  }

  lemma HeadIsHead(c: FullConv)
    ensures IsHead(c, Head(c))
  {
    hide Title, IsTitle, Trunc;
    TitleIsTitle(c.name);
  }

  lemma {:induction false} SectionsStandInRow(ms: seq<Message>) returns (sections: seq<string>)
    ensures AreSections(ms, sections) && Sections(ms) == Join(sections, "")
  {
    hide MessageSection, IsSection;
    if ms == [] {
      sections := [];
    } else {
      var front, last := ms[..|ms| - 1], ms[|ms| - 1];
      var before := SectionsStandInRow(front);
      SectionIsSection(last);
      sections := before + [MessageSection(last)];
      JoinOneMore(before, MessageSection(last));
    }
  }

  lemma JoinOneMore(parts: seq<string>, last: string)
    ensures Join(parts + [last], "") == Join(parts, "") + last
  {
    if parts != [] {
      assert (parts + [last])[..|parts|] == parts;
      assert Join(parts, "") + "" == Join(parts, "");
    }
  }

  lemma {:induction false} JoinBehind(head: string, parts: seq<string>)
    ensures Join([head] + parts, "") == head + Join(parts, "")
  {
    if parts == [] {
      assert [head] + parts == [head] && head + "" == head;
    } else {
      var front, last := parts[..|parts| - 1], parts[|parts| - 1];
      JoinBehind(head, front);
      JoinOneMore([head] + front, last);
      JoinOneMore(front, last);
      assert [head] + parts == ([head] + front) + [last] && front + [last] == parts;
      Assoc(head, Join(front, ""), last);
    }
  }

  /** The export, told from the outside: the head, then for every message in its order who speaks, when, and the
  message's own text or blocks in their order; and nothing else. */
  lemma ExportIsTranscript(c: FullConv)
    ensures IsTranscript(c, Render(c))
  {
    hide Head, IsHead, Sections, AreSections, StandInRow, Join;
    HeadIsHead(c);
    var sections := SectionsStandInRow(c.messages);
    JoinBehind(Head(c), sections);
    var at := JoinStandsInRow([Head(c)] + sections, "");
    assert IsRow([Head(c)] + sections, "", Render(c));
  }

  // ---- and nothing else is such a transcript ----

  /** Where the last but one ends. */
  function FrontEnd(parts: seq<string>, at: seq<nat>): (e: nat)
    requires |parts| > 1 && |at| == |parts| + 1
  {
    at[|parts| - 2] + |parts[|parts| - 2]|
  }

  lemma LastStands(parts: seq<string>, sep: string, s: string, at: seq<nat>)
    requires |parts| > 1 && StandInRow(parts, sep, s, at)
    ensures
      var e, last := FrontEnd(parts, at), parts[|parts| - 1];
      e + |sep| + |last| == |s| && s == s[..e] + sep + last
  {
    var n := |parts| - 1;
    var e := FrontEnd(parts, at);
    assert at[n - 1 + 1] == e + |sep| && OccursAt(sep, s, e) && OccursAt(parts[n], s, at[n]);
    SplitAtEnd(s, e, sep, parts[n]);
  }

  lemma FrontStands(parts: seq<string>, sep: string, s: string, at: seq<nat>, i: nat)
    requires |parts| > 1 && StandInRow(parts, sep, s, at) && i < |parts| - 1
    ensures FrontEnd(parts, at) <= |s| && OccursAt(parts[i], s[..FrontEnd(parts, at)], at[i])
    ensures i < |parts| - 2 ==> OccursAt(sep, s[..FrontEnd(parts, at)], at[i] + |parts[i]|)
  {
    var e := FrontEnd(parts, at);
    LastStands(parts, sep, s, at);
    RowGrows(parts, sep, s, at, i);
    EndsBefore(parts[i], s, at[i], e);
    if i < |parts| - 2 {
      RowGrows(parts, sep, s, at, i + 1);
      EndsBefore(sep, s, at[i] + |parts[i]|, e);
    }
  }

  lemma FrontInRow(parts: seq<string>, sep: string, s: string, at: seq<nat>)
    requires |parts| > 1 && StandInRow(parts, sep, s, at) && FrontEnd(parts, at) <= |s|
    ensures
      var n, e := |parts| - 1, FrontEnd(parts, at);
      StandInRow(parts[..n], sep, s[..e], at[..n] + [e])
  {
    hide OccursAt;
    var n, e := |parts| - 1, FrontEnd(parts, at);
    var front, s', at' := parts[..n], s[..e], at[..n] + [e];
    forall i | 0 <= i < n ensures OccursAt(front[i], s', at'[i]) {
      FrontStands(parts, sep, s, at, i);
    }
    forall i | 0 <= i < n - 1
      ensures at'[i + 1] == at'[i] + |front[i]| + |sep| && OccursAt(sep, s', at'[i] + |front[i]|)
    {
      FrontStands(parts, sep, s, at, i);
    }
  }

  lemma SplitAtEnd(s: string, e: nat, sep: string, last: string)
    requires OccursAt(sep, s, e) && OccursAt(last, s, e + |sep|) && |s| == e + |sep| + |last|
    ensures s == s[..e] + sep + last
  {
    assert s == s[..e] + s[e..e + |sep|] + s[e + |sep|..e + |sep| + |last|];
  }

  lemma EndsBefore(w: string, s: string, i: int, e: nat)
    requires OccursAt(w, s, i) && i + |w| <= e <= |s|
    ensures OccursAt(w, s[..e], i)
  {
    assert s[..e][i..i + |w|] == s[i..i + |w|];
  }

  /** Part i ends before the last but one does. */
  lemma {:induction false} RowGrows(parts: seq<string>, sep: string, s: string, at: seq<nat>, i: nat)
    requires i < |parts| - 1 && StandInRow(parts, sep, s, at)
    ensures at[i] + |parts[i]| <= at[|parts| - 2] + |parts[|parts| - 2]|
    decreases |parts| - i
  {
    if i < |parts| - 2 {
      RowGrows(parts, sep, s, at, i + 1);
    }
  }

  lemma {:induction false} RowIsJoin(parts: seq<string>, sep: string, s: string, at: seq<nat>)
    requires StandInRow(parts, sep, s, at)
    ensures s == Join(parts, sep)
  {
    if |parts| > 1 {
      LastStands(parts, sep, s, at);
      FrontInRow(parts, sep, s, at);
      var n, e := |parts| - 1, FrontEnd(parts, at);
      hide StandInRow;
      RowIsJoin(parts[..n], sep, s[..e], at[..n] + [e]);
    } else if |parts| == 1 {
      assert s[0..|parts[0]|] == s;
    }
  }

  lemma SameLength(texts: seq<string>, kept: seq<string>, of: seq<nat>)
    requires IsFiltered(texts, IsNotEmpty, kept, of)
    ensures |of| == |kept| && (texts == [] ==> kept == [])
  {
    if kept != [] {
      assert of[0] < |texts|;
    }
  }

  lemma {:induction false} FilteredIsNonEmpty(texts: seq<string>, kept: seq<string>, of: seq<nat>)
    requires IsFiltered(texts, IsNotEmpty, kept, of)
    ensures kept == NonEmpty(texts)
  {
    SameLength(texts, kept, of);
    hide IsFiltered;
    if texts != [] {
      var n := |texts| - 1;
      if texts[n] != "" {
        LastIsKept(texts, IsNotEmpty, kept, of);
        FrontWithoutKept(texts, IsNotEmpty, kept, of);
        FilteredIsNonEmpty(texts[..n], kept[..|kept| - 1], of[..|kept| - 1]);
        assert kept == kept[..|kept| - 1] + [texts[n]];
      } else {
        FrontWithoutDropped(texts, IsNotEmpty, kept, of);
        FilteredIsNonEmpty(texts[..n], kept, of);
        assert NonEmpty(texts[..n]) + [] == NonEmpty(texts[..n]);
      }
    }
  }

  lemma RawIsRawText(r: Raw, s: string)
    requires IsRawText(r, s)
    ensures s == RawText(r)
  {
    hide StandInRow, IsFiltered, Join, NonEmpty;
    if r.JsonItems? {
      var kept :| IsNonEmptyOf(r.texts, kept) && IsRow(kept, " ", s);
      var of :| IsFiltered(r.texts, IsNotEmpty, kept, of);
      var at :| StandInRow(kept, " ", s, at);
      FilteredIsNonEmpty(r.texts, kept, of);
      RowIsJoin(kept, " ", s, at);
    }
  }

  lemma BlockIsBlockPart(b: Block, s: string)
    requires IsBlock(b, s)
    ensures s == BlockPart(b)
  {
    BlockPartIsBlock(b);
    if b.kind != "text" && b.kind != "tool_use" {
      forall raw | IsRawText(b.content, raw) ensures raw == RawText(b.content) {
        RawIsRawText(b.content, raw);
      }
    }
    hide BlockPart, RawText, IsRawText, Fence;
  }

  lemma TextIsMessageText(m: Message, s: string)
    requires IsMessageText(m, s)
    ensures s == MessageText(m)
  {
    hide StandInRow, IsBlock, BlockPart, Join;
    if m.content != [] {
      var parts :| |parts| == |m.content| && (forall i :: 0 <= i < |parts| ==> IsBlock(m.content[i], parts[i]))
                   && IsRow(parts, "\n", s);
      forall i | 0 <= i < |parts| ensures parts[i] == BlockParts(m.content)[i] {
        BlockIsBlockPart(m.content[i], parts[i]);
      }
      assert parts == BlockParts(m.content);
      var at :| StandInRow(parts, "\n", s, at);
      RowIsJoin(parts, "\n", s, at);
    }
  }

  lemma SectionIsMessageSection(m: Message, s: string)
    requires IsSection(m, s)
    ensures s == MessageSection(m)
  {
    SectionIsSection(m);
    forall text | IsMessageText(m, text) ensures text == MessageText(m) {
      TextIsMessageText(m, text);
    }
    hide MessageText, MessageSection, IsMessageText, Trunc;
  }

  lemma IsTitleIsTitle(name: string, t: string)
    requires IsTitle(name, t)
    ensures t == Title(name)
  {
    hide TrimSpace, IsSpace;
    BlankIsTrimmed(Flatten(name));
    var line: string :| |line| == |name|
      && (forall i :: 0 <= i < |name| ==> line[i] == if name[i] in "\r\n" then ' ' else name[i])
      && t == if forall i :: 0 <= i < |line| ==> IsSpace(line[i]) then "Untitled" else line;
    assert line == Flatten(name);
  }

  lemma IsHeadIsHead(c: FullConv, s: string)
    requires IsHead(c, s)
    ensures s == Head(c)
  {
    var title :| IsTitle(c.name, title)
      && s == "# " + title + "\n\n- Created: " + Trunc(c.createdAt, 19) + "\n- Updated: "
              + Trunc(c.updatedAt, 19) + "\n- Model: " + c.model + "\n\n---\n\n";
    hide Title, IsTitle, Trunc;
    IsTitleIsTitle(c.name, title);
  }

  lemma {:induction false} SectionsAreSections(ms: seq<Message>, sections: seq<string>)
    requires AreSections(ms, sections)
    ensures Join(sections, "") == Sections(ms)
  {
    hide MessageSection, IsSection;
    if ms != [] {
      var n := |ms| - 1;
      SectionsAreSections(ms[..n], sections[..n]);
      SectionIsMessageSection(ms[n], sections[n]);
      JoinOneMore(sections[..n], sections[n]);
      assert sections[..n] + [sections[n]] == sections;
    }
  }

  /** The export is the one text that reads so. */
  lemma ExportIsTheTranscript(c: FullConv, s: string)
    ensures IsTranscript(c, s) <==> s == Render(c)
  {
    hide Head, IsHead, Sections, AreSections, StandInRow, Join;
    ExportIsTranscript(c);
    if IsTranscript(c, s) {
      var head, sections :| IsHead(c, head) && AreSections(c.messages, sections) && IsRow([head] + sections, "", s);
      var at :| StandInRow([head] + sections, "", s, at);
      RowIsJoin([head] + sections, "", s, at);
      JoinBehind(head, sections);
      IsHeadIsHead(c, head);
      SectionsAreSections(c.messages, sections);
    }
  }

  // ---- no message without blocks is lost ----

  lemma OwnTextInSection(m: Message)
    requires m.content == []
    ensures Occurs(m.text, MessageSection(m))
  {
    SectionIsSection(m);
    hide MessageSection, Trunc, Occurs;
    var text :| IsMessageText(m, text)
      && MessageSection(m) ==
           (if m.sender == "human" then "## Human [" else "## Claude [") + Trunc(m.createdAt, 19) + "]\n\n"
           + if text == "" then "" else text + "\n\n";
    var heading := (if m.sender == "human" then "## Human [" else "## Claude [") + Trunc(m.createdAt, 19) + "]\n\n";
    if text == "" {
      assert MessageSection(m) == heading + "";
      OccursLast(heading, text);
    } else {
      OccursLast(heading, text);
      OccursLeft(text, heading + text, "\n\n");
      Assoc(heading, text, "\n\n");
    }
  }

  /** The text of a message without blocks is in the export as one passage. */
  lemma OwnTextIsKept(c: FullConv, i: nat)
    requires i < |c.messages| && c.messages[i].content == []
    ensures Occurs(c.messages[i].text, Render(c))
  {
    var m := c.messages[i];
    hide Head, Sections, MessageSection, Occurs;
    OwnTextInSection(m);
    SectionInSections(c.messages, i);
    OccursTransitive(m.text, MessageSection(m), Sections(c.messages));
    OccursInPart(m.text, Head(c), Sections(c.messages), "");
    assert Render(c) == Head(c) + Sections(c.messages) + "";
  }

  // ---- when there is something to write ----

  /** Nothing is written exactly for a body that is neither a conversation nor looks like JSON, and for one that decodes
  without dates and messages. What is written is the transcript, or the body as it came. */
  lemma WrittenExactly(b: Body)
    ensures b.conv.None? ==> MarkdownOf(b) == if StartsWith(TrimSpace(b.text), "{") then b.text else ""
    ensures b.conv.Some? ==>
      var c := b.conv.value;
      if c.createdAt == "" && c.updatedAt == "" && |c.messages| == 0 then MarkdownOf(b) == ""
      else MarkdownOf(b) != "" && IsTranscript(c, MarkdownOf(b))
  {
    hide TrimSpace, IsTranscript, Head, Sections;
    if b.conv.Some? {
      HeadStarts(b.conv.value);
      ExportIsTranscript(b.conv.value);
    }
  }
}
