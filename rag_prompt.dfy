/**
 * The text that the manga assistant sends to the language model: one block per
 * retrieved document, the user message that wraps that context and the
 * question, and parsers that read both texts back. The read-back is exact when
 * the question and every rendered field are single lines; a field that spans
 * several lines makes the block format ambiguous, and the parser stops each
 * field at its first line break.
 */
module RagPrompt {
  import opened Wrappers
  import opened Documents

  /** How an f-string shows `d.get(field)`: a string as is, a missing field or null as `None`. */
  function Render(v: Option<Value>, format: Value -> string): (text: string)
    ensures v.None? || v == Some(Null) ==> text == "None"
    ensures v.Some? && v.value.Str? ==> text == v.value.s
  {
    match v
    case None => "None"
    case Some(Null) => "None"
    case Some(Str(s)) => s
    case Some(other) => format(other)
  }

  /** The four rendered fields of one context block. */
  datatype BlockFields = BlockFields(title: string, author: string, category: string, summary: string)

  function FieldsOf(d: Document, format: Value -> string): BlockFields {
    BlockFields(Render(Get(d, "Title"), format), Render(Get(d, "Author"), format),
                Render(Get(d, "Category"), format), Render(Get(d, "Description"), format))
  }

  function AllFields(docs: seq<Document>, format: Value -> string): (fs: seq<BlockFields>)
    ensures |fs| == |docs| && forall k :: 0 <= k < |docs| ==> fs[k] == FieldsOf(docs[k], format)
  {
    seq(|docs|, k requires 0 <= k < |docs| => FieldsOf(docs[k], format))
  }

  const TitleLabel := "Titre: "
  const AuthorLabel := "Auteur: "
  const CategoryLabel := "Cat\U{E9}gorie: "
  const SummaryLabel := "R\U{E9}sum\U{E9}: "
  const Separator := "---\n"

  /** One labelled line. */
  function Line(tag: string, value: string): string {
    tag + value + "\n"
  }

  /** One block: four labelled lines and the `---` line. */
  function BlockText(f: BlockFields): string {
    Line(TitleLabel, f.title) + Line(AuthorLabel, f.author) + Line(CategoryLabel, f.category)
    + Line(SummaryLabel, f.summary) + Separator
  }

  /** Texts one after another, in order. */
  function Concat(texts: seq<string>): string {
    if texts == [] then "" else Concat(texts[..|texts| - 1]) + texts[|texts| - 1]
  }

  /** Concatenating two lists of texts concatenates their joins. */
  lemma {:induction false} ConcatAppend(a: seq<string>, b: seq<string>)
    ensures Concat(a + b) == Concat(a) + Concat(b)
  {
    if b != [] {
      var n := |b| - 1;
      ConcatAppend(a, b[..n]);
      assert (a + b)[..|a + b| - 1] == a + b[..n];
      calc {
        Concat(a + b);
        Concat(a + b[..n]) + b[n];
        (Concat(a) + Concat(b[..n])) + b[n];
        Concat(a) + (Concat(b[..n]) + b[n]);
      }
    } else {
      assert a + b == a;
    }
  }

  /** The text of each block. */
  function Texts(blocks: seq<BlockFields>): (texts: seq<string>)
    ensures |texts| == |blocks| && forall k :: 0 <= k < |blocks| ==> texts[k] == BlockText(blocks[k])
  {
    seq(|blocks|, k requires 0 <= k < |blocks| => BlockText(blocks[k]))
  }

  /** The blocks one after another, in order. */
  function Joined(blocks: seq<BlockFields>): string {
    Concat(Texts(blocks))
  }

  /** `context_text` after the loop over `docs`. */
  function Context(docs: seq<Document>, format: Value -> string): string {
    Joined(AllFields(docs, format))
  }

  /** Appending blocks appends their texts. */
  lemma JoinedAppend(a: seq<BlockFields>, b: seq<BlockFields>)
    ensures Joined(a + b) == Joined(a) + Joined(b)
  {
    assert Texts(a + b) == Texts(a) + Texts(b);
    ConcatAppend(Texts(a), Texts(b));
  }

  /** Putting a block in front puts its text in front. */
  lemma JoinedCons(first: BlockFields, rest: seq<BlockFields>)
    ensures Joined([first] + rest) == BlockText(first) + Joined(rest)
  {
    JoinedAppend([first], rest);
    var t := BlockText(first);
    assert Texts([first]) == [t];
    assert [t][..0] == [];
    assert Concat([t]) == Concat([]) + t;
    assert [] + t == t;
  }

  /** The context of a list is the context of any split of it, concatenated: the order of `docs` is kept. */
  lemma ContextAppend(a: seq<Document>, b: seq<Document>, format: Value -> string)
    ensures Context(a + b, format) == Context(a, format) + Context(b, format)
  {
    assert AllFields(a + b, format) == AllFields(a, format) + AllFields(b, format);
    JoinedAppend(AllFields(a, format), AllFields(b, format));
  }

  /**
   * The loop at the start of `generate_rag_response`: appends one block per
   * document to `context_text`, in input order.
   */
  method BuildContext(docs: seq<Document>, format: Value -> string) returns (context: string)
    ensures context == Context(docs, format)
  {
    context := "";
    for i := 0 to |docs|
      invariant context == Joined(AllFields(docs[..i], format))
    {
      context := context + BlockText(FieldsOf(docs[i], format));
      ghost var texts := Texts(AllFields(docs[..i + 1], format));
      assert texts[..i] == Texts(AllFields(docs[..i], format));
    }
    assert docs[..|docs|] == docs;
  }

  // ---------------------------------------------------------------------------
  // Reading a context back.

  /** Splits `s` at its first newline. */
  function SplitLine(s: string): (r: Option<(string, string)>)
    ensures r.Some? ==> s == r.value.0 + "\n" + r.value.1 && '\n' !in r.value.0
    ensures r.None? <==> '\n' !in s
  {
    if s == [] then None
    else if s[0] == '\n' then Some(([], s[1..]))
    else
      match SplitLine(s[1..])
      case None => None
      case Some(split) => Some(([s[0]] + split.0, split.1))
  }

  /** `s` begins with `prefix`. */
  predicate StartsWith(s: string, prefix: string) {
    |prefix| <= |s| && s[..|prefix|] == prefix
  }

  /** Reads one line that starts with `tag`. */
  function ReadField(tag: string, s: string): (r: Option<(string, string)>)
    ensures r.Some? ==> s == Line(tag, r.value.0) + r.value.1 && '\n' !in r.value.0
  {
    if StartsWith(s, tag) then SplitLine(s[|tag|..]) else None
  }

  lemma BlockTextSplit(f: BlockFields, rest: string)
    ensures BlockText(f) + rest
         == Line(TitleLabel, f.title) + (Line(AuthorLabel, f.author) + (Line(CategoryLabel, f.category)
            + (Line(SummaryLabel, f.summary) + (Separator + rest))))
  {
  }

  /** Four labelled lines and the separator, read one after another, make up a block. */
  lemma BlockOfLines(s: string, f: BlockFields, s1: string, s2: string, s3: string, s4: string, rest: string)
    requires s == Line(TitleLabel, f.title) + s1
    requires s1 == Line(AuthorLabel, f.author) + s2
    requires s2 == Line(CategoryLabel, f.category) + s3
    requires s3 == Line(SummaryLabel, f.summary) + s4
    requires StartsWith(s4, Separator) && rest == s4[|Separator|..]
    ensures s == BlockText(f) + rest
  {
    assert s4 == Separator + rest;
    BlockTextSplit(f, rest);
  }

  /** Reads one block from the front of `s`, returning its fields and the rest. */
  function ParseBlock(s: string): (r: Option<(BlockFields, string)>)
    ensures r.Some? ==> s == BlockText(r.value.0) + r.value.1
  {
    var t :- ReadField(TitleLabel, s);
    var a :- ReadField(AuthorLabel, t.1);
    var c :- ReadField(CategoryLabel, a.1);
    var d :- ReadField(SummaryLabel, c.1);
    if StartsWith(d.1, Separator) then
      var f := BlockFields(t.0, a.0, c.0, d.0);
      var rest := d.1[|Separator|..];
      BlockOfLines(s, f, t.1, a.1, c.1, d.1, rest);
      Some((f, rest))
    else
      None
  }

  /** Reads a whole context, block after block. */
  function ParseContext(s: string): (r: Option<seq<BlockFields>>)
    ensures r.Some? ==> s == Joined(r.value)
    decreases |s|
  {
    if s == [] then Some([])
    else
      var first :- ParseBlock(s);
      var rest :- ParseContext(first.1);
      JoinedCons(first.0, rest);
      Some([first.0] + rest)
  }

  /** None of the rendered fields spans more than one line. */
  predicate SingleLine(f: BlockFields) {
    '\n' !in f.title && '\n' !in f.author && '\n' !in f.category && '\n' !in f.summary
  }

  lemma {:induction false} SplitLineAt(line: string, rest: string)
    requires '\n' !in line
    ensures SplitLine(line + "\n" + rest) == Some((line, rest))
  {
    if line != [] {
      SplitLineAt(line[1..], rest);
      assert (line + "\n" + rest)[1..] == line[1..] + "\n" + rest;
      assert [line[0]] + line[1..] == line;
    }
  }

  lemma ReadFieldAt(tag: string, line: string, rest: string)
    requires '\n' !in line
    ensures ReadField(tag, Line(tag, line) + rest) == Some((line, rest))
  {
    var s := Line(tag, line) + rest;
    assert s[..|tag|] == tag;
    assert s[|tag|..] == line + "\n" + rest;
    SplitLineAt(line, rest);
  }

  lemma ParseBlockAt(f: BlockFields, rest: string)
    requires SingleLine(f)
    ensures ParseBlock(BlockText(f) + rest) == Some((f, rest))
  {
    var s4 := Separator + rest;
    var s3 := Line(SummaryLabel, f.summary) + s4;
    var s2 := Line(CategoryLabel, f.category) + s3;
    var s1 := Line(AuthorLabel, f.author) + s2;
    BlockTextSplit(f, rest);
    ReadFieldAt(TitleLabel, f.title, s1);
    ReadFieldAt(AuthorLabel, f.author, s2);
    ReadFieldAt(CategoryLabel, f.category, s3);
    ReadFieldAt(SummaryLabel, f.summary, s4);
    assert s4[..|Separator|] == Separator && s4[|Separator|..] == rest;
  }

  /** A context whose fields are single lines reads back as exactly its blocks, in order. */
  lemma {:induction false} ParseJoined(blocks: seq<BlockFields>)
    requires forall k :: 0 <= k < |blocks| ==> SingleLine(blocks[k])
    ensures ParseContext(Joined(blocks)) == Some(blocks)
  {
    if blocks != [] {
      var rest := blocks[1..];
      JoinedCons(blocks[0], rest);
      assert [blocks[0]] + rest == blocks;
      ParseBlockAt(blocks[0], Joined(rest));
      ParseJoined(rest);
    }
  }

  /** The context built from `docs` names each document's four fields, one block per document, in order. */
  lemma ParseContextOfDocs(docs: seq<Document>, format: Value -> string)
    requires forall k :: 0 <= k < |docs| ==> SingleLine(FieldsOf(docs[k], format))
    ensures ParseContext(Context(docs, format)) == Some(AllFields(docs, format))
  {
    ParseJoined(AllFields(docs, format));
  }

  // ---------------------------------------------------------------------------
  // The user message.

  const ContextHeader := "\nContexte :\n"
  const QuestionHeader := "\n\nQuestion utilisateur :\n"

  /** The triple-quoted f-string: the context under its header, then the question under its own. */
  function UserMessage(context: string, query: string): string {
    ContextHeader + context + QuestionHeader + query + "\n"
  }

  /** The longest suffix of `s` without a newline. */
  function LastLine(s: string): (line: string)
    ensures |line| <= |s| && line == s[|s| - |line|..] && '\n' !in line
    ensures |line| < |s| ==> s[|s| - |line| - 1] == '\n'
  {
    if s == [] || s[|s| - 1] == '\n' then [] else LastLine(s[..|s| - 1]) + [s[|s| - 1]]
  }

  lemma {:induction false} LastLineAfterNewline(head: string, line: string)
    requires head != [] && head[|head| - 1] == '\n' && '\n' !in line
    ensures LastLine(head + line) == line
  {
    if line != [] {
      var n := |line| - 1;
      var s := head + line;
      assert s[|s| - 1] == line[n] && line[n] != '\n';
      assert s[..|s| - 1] == head + line[..n];
      assert '\n' !in line[..n] by {
        assert forall i :: 0 <= i < n ==> line[..n][i] == line[i];
      }
      LastLineAfterNewline(head, line[..n]);
      assert LastLine(s) == line[..n] + [line[n]];
      assert line == line[..n] + [line[n]];
    }
  }

  /** Recovers the context and the question from a user message whose question is one line. */
  function ParseUserMessage(msg: string): (r: Option<(string, string)>)
    ensures r.Some? ==> msg == UserMessage(r.value.0, r.value.1) && '\n' !in r.value.1
  {
    if |msg| < |ContextHeader| + 1 || msg[..|ContextHeader|] != ContextHeader || msg[|msg| - 1] != '\n' then None
    else
      var body := msg[|ContextHeader|..|msg| - 1];
      var query := LastLine(body);
      var head := body[..|body| - |query|];
      if |head| < |QuestionHeader| || head[|head| - |QuestionHeader|..] != QuestionHeader then None
      else
        var context := head[..|head| - |QuestionHeader|];
        Reassemble(msg, ContextHeader, QuestionHeader, body, head, context, query);
        Some((context, query))
  }

  /** Puts the pieces `ParseUserMessage` cut out back together. */
  lemma Reassemble(msg: string, opening: string, middle: string, body: string, head: string, context: string, query: string)
    requires |opening| < |msg| && msg[..|opening|] == opening && msg[|msg| - 1] == '\n'
    requires body == msg[|opening|..|msg| - 1]
    requires |query| <= |body| && query == body[|body| - |query|..] && head == body[..|body| - |query|]
    requires |middle| <= |head| && head[|head| - |middle|..] == middle
    requires context == head[..|head| - |middle|]
    ensures msg == opening + context + middle + query + "\n"
  {
    assert head == context + middle;
    assert body == head + query;
    assert msg == opening + body + "\n";
  }

  /** A one-line question and any context are read back from the user message. */
  lemma ParseUserMessageOf(context: string, query: string)
    requires '\n' !in query
    ensures ParseUserMessage(UserMessage(context, query)) == Some((context, query))
  {
    var msg := UserMessage(context, query);
    var head := ContextHeader + context + QuestionHeader;
    assert msg == head + query + "\n";
    assert msg[..|ContextHeader|] == ContextHeader;
    var body := msg[|ContextHeader|..|msg| - 1];
    assert body == context + QuestionHeader + query;
    LastLineAfterNewline(context + QuestionHeader, query);
    assert body[..|body| - |query|] == context + QuestionHeader;
  }
}
