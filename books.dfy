/**
 * The book records of the reader app: a book with its chapters, the chapter
 * count it reports, and the 25-character preview a chapter shows.
 */
module Books {

  /** `BookChapterModel`: the chapter's fields, with `hadRead` starting false. */
  datatype Chapter = Chapter(bookId: string, index: int, title: string, content: string, hadRead: bool)

  /** `BookModel`: the book's fields, with `readChapters` starting at 0. */
  datatype Book = Book(id: string, title: string, author: string, kind: string,
                       chapters: seq<Chapter>, readChapters: int)

  /** The longest content a preview shows whole. */
  const PreviewLength: nat := 25

  /** Constructing a chapter: the given fields, not yet read. */
  function NewChapter(bookId: string, index: int, title: string, content: string): (c: Chapter)
    ensures c.bookId == bookId && c.index == index && c.title == title && c.content == content
    ensures !c.hadRead
  {
    Chapter(bookId, index, title, content, false)
  }

  /** Constructing a book: the given fields, no chapters unless given, none read. */
  function NewBook(id: string, title: string, author: string, kind: string,
                   chapters: seq<Chapter> := []): (b: Book)
    ensures b.id == id && b.title == title && b.author == author && b.kind == kind
    ensures b.chapters == chapters
    ensures b.readChapters == 0
  {
    Book(id, title, author, kind, chapters, 0)
  }

  /** `totalChapters`: the number of chapters the book holds. */
  function TotalChapters(b: Book): (n: nat)
    ensures n == |b.chapters|
  {
    |b.chapters|
  }

  /** A book made without chapters counts none, and adding a chapter adds one to the count. */
  lemma TotalChaptersGrow(id: string, title: string, author: string, kind: string, b: Book, c: Chapter)
    ensures TotalChapters(NewBook(id, title, author, kind)) == 0
    ensures TotalChapters(b.(chapters := b.chapters + [c])) == TotalChapters(b) + 1
  {
  }

  /** The preview of a text: the text itself up to 25 characters, else its first 25 and "...". */
  function Preview(s: string): (r: string)
    ensures |s| <= PreviewLength ==> r == s
    ensures |s| > PreviewLength ==> |r| == PreviewLength + 3
    ensures |s| > PreviewLength ==> r[..PreviewLength] == s[..PreviewLength] && r[PreviewLength..] == "..."
  {
    if |s| > PreviewLength then s[..PreviewLength] + "..." else s
  }

  /** `displayContent`: the preview of the chapter's content. */
  function DisplayContent(c: Chapter): (r: string)
    ensures |r| <= PreviewLength + 3
  {
    Preview(c.content)
  }

  /** A preview is its own preview. */
  lemma PreviewIdempotent(s: string)
    ensures Preview(Preview(s)) == Preview(s)
  {
    if |s| > PreviewLength {
      var r := Preview(s);
      assert r[..PreviewLength] == s[..PreviewLength];
    }
  }

  /** Two long texts have the same preview exactly when their first 25 characters agree. */
  lemma PreviewSameStart(s: string, t: string)
    requires |s| > PreviewLength && |t| > PreviewLength
    ensures Preview(s) == Preview(t) <==> s[..PreviewLength] == t[..PreviewLength]
  {
    if Preview(s) == Preview(t) {
      assert Preview(s)[..PreviewLength] == Preview(t)[..PreviewLength];
    }
  }
}
