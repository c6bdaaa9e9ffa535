/**
  The documents the analyzer reads, and the text each one hands to it (GetRelevantText).
  The iDNES article has two revisions: src/Common/Documents/Idnes/Article.cs keeps headline,
  opener, text and tags; Common/Documents/Idnes/Article.cs also appends authors, related
  articles and comments.
*/
module Documents {

  datatype Comment = Comment(text: string, timeStamp: string, author: string, positiveReactions: int, negativeReactions: int)

  datatype Article = Article(
    headline: string, opener: string, text: string, datePublished: string, dateModified: string,
    authors: seq<string>, tags: seq<string>, relatedArticles: seq<string>, comments: seq<Comment>)

  /** The document kinds: a plain text, a TREC evaluation document and an iDNES article. */
  datatype Document =
    | Plain(text: string)
    | Trec(title: string, body: string, documentId: string, date: string)
    | IdnesArticle(article: Article)

  /** Comment.GetRelevantText. */
  function CommentText(c: Comment): string {
    c.author + "\n" + c.text
  }

  function CommentTexts(comments: seq<Comment>): (r: seq<string>)
    ensures |r| == |comments|
    ensures forall i :: 0 <= i < |comments| ==> r[i] == CommentText(comments[i])
    decreases |comments|
  {
    if comments == [] then [] else CommentTexts(comments[..|comments| - 1]) + [CommentText(comments[|comments| - 1])]
  }

  /** Each item followed by sep, in order: what a foreach loop of `s += item + sep` appends. */
  function Terminated(items: seq<string>, sep: string): string
    decreases |items|
  {
    if items == [] then [] else Terminated(items[..|items| - 1], sep) + (items[|items| - 1] + sep)
  }

  function TotalLength(items: seq<string>): nat
    decreases |items|
  {
    if items == [] then 0 else TotalLength(items[..|items| - 1]) + |items[|items| - 1]|
  }

  /** The first line group of both article revisions. */
  function Header(a: Article): string {
    a.headline + "\n" + a.opener + "\n" + a.text + "\n"
  }

  /** The src revision of Article.GetRelevantText. */
  function ArticleText(a: Article): string {
    Header(a) + Terminated(a.tags, " ") + "\n"
  }

  /** The older revision of Article.GetRelevantText. */
  function LegacyArticleText(a: Article): string {
    Header(a) + Terminated(a.authors, " ") + "\n" + Terminated(a.tags, " ") + "\n"
      + Terminated(a.relatedArticles, "\n") + Terminated(CommentTexts(a.comments), "\n")
  }

  /** GetRelevantText of each document kind, src revision. */
  function RelevantText(d: Document): string {
    match d
    case Plain(text) => text
    case Trec(title, body, _, _) => title + " " + body
    case IdnesArticle(a) => ArticleText(a)
  }

  /** GetRelevantText of each document kind, older revision. */
  function LegacyRelevantText(d: Document): string {
    match d
    case Plain(text) => text
    case Trec(title, body, _, _) => title + " " + body
    case IdnesArticle(a) => LegacyArticleText(a)
  }

  /** Appends `item + sep` for each item; the loop body of every foreach in GetRelevantText. */
  method AppendTerminated(s0: string, items: seq<string>, sep: string) returns (s: string)
    ensures s == s0 + Terminated(items, sep)
  {
    s := s0;
    for i := 0 to |items|
      invariant s == s0 + Terminated(items[..i], sep)
    {
      assert items[..i + 1][..i] == items[..i];
      s := s + (items[i] + sep);
    }
    assert items[..|items|] == items;
  }

  /** Article.GetRelevantText, src revision. */
  method GetRelevantText(a: Article) returns (s: string)
    ensures s == ArticleText(a)
  {
    s := a.headline + "\n" + a.opener + "\n" + a.text + "\n";
    s := AppendTerminated(s, a.tags, " ");
    s := s + "\n";
  }

  /** Article.GetRelevantText, older revision. */
  method LegacyGetRelevantText(a: Article) returns (s: string)
    ensures s == LegacyArticleText(a)
  {
    s := a.headline + "\n" + a.opener + "\n" + a.text + "\n";
    s := AppendTerminated(s, a.authors, " ");
    s := s + "\n";
    s := AppendTerminated(s, a.tags, " ");
    s := s + "\n";
    s := AppendTerminated(s, a.relatedArticles, "\n");
    var commentTexts := [];
    for i := 0 to |a.comments|
      invariant commentTexts == CommentTexts(a.comments[..i])
    {
      assert a.comments[..i + 1][..i] == a.comments[..i];
      commentTexts := commentTexts + [CommentText(a.comments[i])];
    }
    assert a.comments[..|a.comments|] == a.comments;
    s := AppendTerminated(s, commentTexts, "\n");
  }

  /** Terminated works list piece by list piece. */
  lemma {:induction false} TerminatedAppend(a: seq<string>, b: seq<string>, sep: string)
    ensures Terminated(a + b, sep) == Terminated(a, sep) + Terminated(b, sep)
    decreases |b|
  {
    if b == [] {
      assert a + b == a;
    } else {
      var init := b[..|b| - 1];
      var last := b[|b| - 1];
      assert (a + b)[..|a + b| - 1] == a + init;
      TerminatedAppend(a, init, sep);
      assert Terminated(a + b, sep) == Terminated(a, sep) + Terminated(init, sep) + (last + sep);
    }
  }

  /** Every item contributes its text and one separator. */
  lemma {:induction false} TerminatedLength(items: seq<string>, sep: string)
    ensures |Terminated(items, sep)| == TotalLength(items) + |items| * |sep|
    decreases |items|
  {
    if items != [] {
      TerminatedLength(items[..|items| - 1], sep);
    }
  }

  /** Item i sits, followed by sep, right after the text of the items before it. */
  lemma TerminatedItem(items: seq<string>, sep: string, i: nat)
    requires i < |items|
    ensures Terminated(items[..i], sep) + (items[i] + sep) <= Terminated(items, sep)
  {
    assert items == items[..i + 1] + items[i + 1..];
    TerminatedAppend(items[..i + 1], items[i + 1..], sep);
    assert items[..i + 1][..i] == items[..i];
  }

  /** The article text starts with headline, opener and text on their own lines, then lists
      each tag in order followed by one space, and ends with a line break. */
  lemma ArticleTextShape(a: Article, i: nat)
    requires i < |a.tags|
    ensures Header(a) <= ArticleText(a)
    ensures ArticleText(a)[|ArticleText(a)| - 1] == '\n'
    ensures Header(a) + Terminated(a.tags[..i], " ") + (a.tags[i] + " ") <= ArticleText(a)
  {
    TerminatedItem(a.tags, " ", i);
    var t := Terminated(a.tags, " ");
    var p := Terminated(a.tags[..i], " ") + (a.tags[i] + " ");
    assert ArticleText(a) == Header(a) + (t + "\n");
    assert t == p + t[|p|..];
  }

  /** The article text's length: the three fields with their line breaks, every tag with its
      space, and the closing line break. */
  lemma ArticleTextLength(a: Article)
    ensures |ArticleText(a)| == |a.headline| + |a.opener| + |a.text| + 3 + TotalLength(a.tags) + |a.tags| + 1
  {
    TerminatedLength(a.tags, " ");
  }

  /** Only headline, opener, text and tags reach the src revision's text. */
  lemma {:induction false} ArticleTextIgnoresOtherFields(a: Article, b: Article)
    requires a.headline == b.headline && a.opener == b.opener && a.text == b.text && a.tags == b.tags
    ensures ArticleText(a) == ArticleText(b)
  {
  }

  /** The older text is the src text with an empty author line inserted after the header, when
      there are no authors, related articles or comments; each related article and comment
      otherwise adds its own lines at the end. */
  lemma LegacyArticleTextWithoutExtras(a: Article)
    requires a.authors == [] && a.relatedArticles == [] && a.comments == []
    ensures LegacyArticleText(a) == Header(a) + "\n" + ArticleText(a)[|Header(a)|..]
  {
    var rest := Terminated(a.tags, " ") + "\n";
    assert ArticleText(a) == Header(a) + rest;
    assert ArticleText(a)[|Header(a)|..] == rest;
    assert CommentTexts(a.comments) == [];
  }

  /** The older text's layout: the header, one line of space-terminated authors, one line of
      space-terminated tags, then the related-article lines, and the comment lines last. */
  lemma LegacyArticleTextShape(a: Article)
    ensures Header(a) + Terminated(a.authors, " ") + "\n" + Terminated(a.tags, " ") + "\n" <= LegacyArticleText(a)
    ensures var text, cm := LegacyArticleText(a), Terminated(CommentTexts(a.comments), "\n");
      |cm| <= |text| && text[|text| - |cm|..] == cm
  {
    var front := Header(a) + Terminated(a.authors, " ") + "\n" + Terminated(a.tags, " ") + "\n";
    var rel := Terminated(a.relatedArticles, "\n");
    var cm := Terminated(CommentTexts(a.comments), "\n");
    var text := LegacyArticleText(a);
    assert text == front + (rel + cm);
    assert text == (front + rel) + cm;
  }

  /** Author i sits on the author line, followed by one space, right after the earlier authors. */
  lemma LegacyAuthorLine(a: Article, i: nat)
    requires i < |a.authors|
    ensures Header(a) + Terminated(a.authors[..i], " ") + (a.authors[i] + " ") <= LegacyArticleText(a)
  {
    var back := "\n" + Terminated(a.tags, " ") + "\n" + Terminated(a.relatedArticles, "\n")
      + Terminated(CommentTexts(a.comments), "\n");
    assert LegacyArticleText(a) == Header(a) + Terminated(a.authors, " ") + back;
    TerminatedItem(a.authors, " ", i);
    PrefixInContext(Header(a), Terminated(a.authors[..i], " ") + (a.authors[i] + " "), Terminated(a.authors, " "), back);
  }

  /** Tag i sits on the line after the authors, followed by one space, right after the earlier tags. */
  lemma LegacyTagLine(a: Article, i: nat)
    requires i < |a.tags|
    ensures Header(a) + Terminated(a.authors, " ") + "\n" + Terminated(a.tags[..i], " ") + (a.tags[i] + " ")
      <= LegacyArticleText(a)
  {
    var front := Header(a) + Terminated(a.authors, " ") + "\n";
    var back := "\n" + Terminated(a.relatedArticles, "\n") + Terminated(CommentTexts(a.comments), "\n");
    assert LegacyArticleText(a) == front + Terminated(a.tags, " ") + back;
    TerminatedItem(a.tags, " ", i);
    PrefixInContext(front, Terminated(a.tags[..i], " ") + (a.tags[i] + " "), Terminated(a.tags, " "), back);
  }

  /** Related article i has a line of its own, after the tag line and the earlier related articles. */
  lemma LegacyRelatedArticleLine(a: Article, i: nat)
    requires i < |a.relatedArticles|
    ensures Header(a) + Terminated(a.authors, " ") + "\n" + Terminated(a.tags, " ") + "\n"
      + Terminated(a.relatedArticles[..i], "\n") + (a.relatedArticles[i] + "\n") <= LegacyArticleText(a)
  {
    var front := Header(a) + Terminated(a.authors, " ") + "\n" + Terminated(a.tags, " ") + "\n";
    var back := Terminated(CommentTexts(a.comments), "\n");
    assert LegacyArticleText(a) == front + Terminated(a.relatedArticles, "\n") + back;
    TerminatedItem(a.relatedArticles, "\n", i);
    PrefixInContext(front, Terminated(a.relatedArticles[..i], "\n") + (a.relatedArticles[i] + "\n"),
                    Terminated(a.relatedArticles, "\n"), back);
  }

  /** A prefix of the middle piece, after the same front, is a prefix of the whole. */
  lemma PrefixInContext(front: string, x: string, y: string, back: string)
    requires x <= y
    ensures front + x <= front + y + back
  {
    assert front + y + back == front + x + (y[|x|..] + back);
  }

  /** Each comment of the older text contributes its author line and its text line. */
  lemma LegacyCommentLines(a: Article, i: nat)
    requires i < |a.comments|
    ensures Terminated(CommentTexts(a.comments)[..i], "\n") + (a.comments[i].author + "\n" + a.comments[i].text + "\n")
      <= Terminated(CommentTexts(a.comments), "\n")
  {
    TerminatedItem(CommentTexts(a.comments), "\n", i);
  }
}
