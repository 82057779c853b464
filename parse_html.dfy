/**
 * `convertEditorJsToHtml`: the Editor.js document of a question or answer body
 * rendered block by block as HTML text.
 *
 * `JSON.parse` is the `parse` parameter (`None` when it throws). Blocks are
 * taken as already decoded; a block whose fields are missing, which would throw
 * inside the `map`, is not part of this model.
 */
module ParseHtml {
  import opened Wrappers
  import opened Seqs
  import opened Utils

  datatype Block =
    | Header(level: nat, text: string)
    | Paragraph(text: string)
    /** `caption` is "" when the block has none (`caption || ''`). */
    | Image(url: string, caption: string)
    | Unknown(kind: string)

  /** The decoded data; `blocks` is `None` when the field is missing or falsy. */
  datatype Document = Document(blocks: Option<seq<Block>>)

  /** The `content` prop: a falsy value, a string, or an already decoded object. */
  datatype Content = Falsy | Text(text: string) | Decoded(doc: Document)

  function Spaces(n: nat): (r: string)
    ensures |r| == n && forall i :: 0 <= i < n ==> r[i] == ' '
  {
    seq(n, _ => ' ')
  }

  /** The template lines of an image block up to the `src` value. */
  function FigureOpen(): string {
    "<figure>\n" + Spaces(14) + "<img src=\""
  }

  function FigureClose(caption: string): string {
    "\" alt=\"" + caption + "\" />\n"
    + Spaces(14) + (if caption != "" then "<figcaption>" + caption + "</figcaption>" else "") + "\n"
    + Spaces(12) + "</figure>"
  }

  /** The `switch` over one block. */
  function BlockHtml(b: Block): string {
    match b
    case Header(level, text) => "<h" + Decimal(level) + ">" + text + "</h" + Decimal(level) + ">"
    case Paragraph(text) => "<p>" + text + "</p>"
    case Image(url, caption) => FigureOpen() + url + FigureClose(caption)
    case Unknown(_) => ""
  }

  /** `blocks.map(...).join('')`. */
  function Join(blocks: seq<Block>): string {
    if |blocks| == 0 then "" else BlockHtml(blocks[0]) + Join(blocks[1..])
  }

  function DocumentHtml(d: Document): string {
    if d.blocks.None? then "" else Join(d.blocks.value)
  }

  /** `convertEditorJsToHtml(content)`. */
  function ConvertEditorJsToHtml(content: Content, parse: string -> Option<Document>): (r: string)
    ensures content.Falsy? || content == Text("") ==> r == ""
    ensures content.Text? && content.text != "" && parse(content.text).None? ==> r == content.text
    ensures content.Decoded? ==> r == DocumentHtml(content.doc)
    ensures content.Text? && content.text != "" && parse(content.text).Some? ==> r == DocumentHtml(parse(content.text).value)
  {
    match content
    case Falsy => ""
    case Text(s) =>
      if s == "" then ""  // the empty string is falsy too
      else (match parse(s) case None => s case Some(d) => DocumentHtml(d))
    case Decoded(d) => DocumentHtml(d)
  }

  /** The blocks render independently: rendering `a + b` is rendering `a`, then `b`. */
  lemma {:induction false} JoinAppend(a: seq<Block>, b: seq<Block>)
    ensures Join(a + b) == Join(a) + Join(b)
  {
    if |a| == 0 {
      assert a + b == b;
    } else {
      assert (a + b)[1..] == a[1..] + b;
      JoinAppend(a[1..], b);
    }
  }

  predicate Known(b: Block) {
    !b.Unknown?
  }

  /** Blocks of an unknown type leave no trace. */
  lemma {:induction false} UnknownBlocksVanish(blocks: seq<Block>)
    ensures Join(Filter(blocks, Known)) == Join(blocks)
  {
    if |blocks| > 0 {
      UnknownBlocksVanish(blocks[1..]);
    }
  }

  /** A non-empty caption is rendered inside a `figcaption` element. */
  lemma CaptionShown(url: string, caption: string)
    requires caption != ""
    ensures ContainsText(BlockHtml(Image(url, caption)), "<figcaption>" + caption + "</figcaption>")
  {
    var s := BlockHtml(Image(url, caption));
    var pat := "<figcaption>" + caption + "</figcaption>";
    var pre := FigureOpen() + url + "\" alt=\"" + caption + "\" />\n" + Spaces(14);
    assert s == pre + pat + "\n" + Spaces(12) + "</figure>";
    assert OccursAt(s, pat, |pre|);
  }

  /** Without a caption there is no `figcaption` element (given a `src` without `<`). */
  lemma NoCaptionNotShown(url: string)
    requires '<' !in url
    ensures !ContainsText(BlockHtml(Image(url, "")), "<figcaption>")
  {
    var s := BlockHtml(Image(url, ""));
    var open := FigureOpen();
    var close := FigureClose("");
    assert s == open + url + close;
    assert |open| == 33;
    forall i | 0 <= i && i + 12 <= |s| ensures s[i] != '<' || s[i + 4] != 'c' {
      if i < |open| {
        assert s[i] == open[i];
        if i == 0 || i == 23 {
          assert s[i + 4] == open[i + 4];
        }
      } else if i < |open| + |url| {
        assert s[i] == url[i - |open|];
      } else {
        assert s[i] == close[i - |open| - |url|];
      }
    }
    forall i | 0 <= i <= |s| ensures !OccursAt(s, "<figcaption>", i) {
      if i + 12 <= |s| {
        assert s[i..i + 12][0] == s[i] && s[i..i + 12][4] == s[i + 4];
      }
    }
  }
}
