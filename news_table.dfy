/** What the two ingestion functions share: the NewsAPI article they read,
    the row they insert, the headline table as an in-memory list of rows,
    the URL lookup behind their duplicate check, and the fallbacks around a
    language-model rewrite. */
module NewsTable {
  import opened Wrappers
  import opened Text

  /** An article of a NewsAPI response. A field the response leaves out or
      sets to `null` is `None`. */
  datatype Article = Article(
    title: Option<string>,
    url: Option<string>,
    description: Option<string>,
    publishedAt: int,
    sourceName: Option<string>)

  /** An inserted row. `status` is `None` when the insert leaves
      `neutralization_status` to the column default; the database adds the
      id and the timestamps. */
  datatype Row = Row(
    originalTitle: string,
    neutralTitle: string,
    originalDescription: Option<string>,
    neutralDescription: Option<string>,
    url: string,
    publishedAt: int,
    sourceName: Option<string>,
    status: Option<string>)

  /** `!article.title || !article.url`. */
  predicate Incomplete(a: Article) {
    !Truthy(a.title) || !Truthy(a.url)
  }

  function CountUrl(rows: seq<Row>, url: string): (n: nat)
    ensures n <= |rows|
    ensures n == 0 <==> forall i :: 0 <= i < |rows| ==> rows[i].url != url
  {
    if rows == [] then 0 else (if rows[0].url == url then 1 else 0) + CountUrl(rows[1..], url)
  }

  /** `.select('id').eq('url', url).single()` delivers a row only when exactly one matches. */
  predicate Exists(rows: seq<Row>, url: string) {
    CountUrl(rows, url) == 1
  }

  predicate UniqueUrls(rows: seq<Row>) {
    forall i, j :: 0 <= i < j < |rows| ==> rows[i].url != rows[j].url
  }

  lemma {:induction false} CountUrlAppend(rows: seq<Row>, r: Row, url: string)
    ensures CountUrl(rows + [r], url) == CountUrl(rows, url) + if r.url == url then 1 else 0
  {
    if rows != [] {
      assert (rows + [r])[1..] == rows[1..] + [r];
      CountUrlAppend(rows[1..], r, url);
    }
  }

  /** With unique URLs the duplicate check is plain membership. */
  lemma {:induction false} ExistsIffStored(rows: seq<Row>, url: string)
    requires UniqueUrls(rows)
    ensures Exists(rows, url) <==> exists i :: 0 <= i < |rows| && rows[i].url == url
  {
    if rows != [] {
      assert UniqueUrls(rows[1..]) by {
        forall i, j | 0 <= i < j < |rows[1..]| ensures rows[1..][i].url != rows[1..][j].url {
          assert rows[1..][i] == rows[i + 1] && rows[1..][j] == rows[j + 1];
        }
      }
      ExistsIffStored(rows[1..], url);
      if rows[0].url == url {
        assert forall i :: 0 <= i < |rows[1..]| ==> rows[1..][i].url != url by {
          forall i | 0 <= i < |rows[1..]| ensures rows[1..][i].url != url {
            assert rows[1..][i] == rows[i + 1];
          }
        }
      } else {
        if exists i :: 0 <= i < |rows| && rows[i].url == url {
          var i :| 0 <= i < |rows| && rows[i].url == url;
          assert rows[1..][i - 1] == rows[i];
        }
      }
    }
  }

  /** Appending a row whose URL is not stored keeps the URLs unique. */
  lemma AppendKeepsUnique(rows: seq<Row>, r: Row)
    requires UniqueUrls(rows) && CountUrl(rows, r.url) == 0
    ensures UniqueUrls(rows + [r])
  {
    var t := rows + [r];
    forall i, j | 0 <= i < j < |t| ensures t[i].url != t[j].url {
      if j == |rows| {
        assert t[i] == rows[i];
      } else {
        assert t[i] == rows[i] && t[j] == rows[j];
      }
    }
  }

  /** The headline table, in insertion order. */
  class HeadlineTable {
    var rows: seq<Row>

    constructor (rows: seq<Row>)
      ensures this.rows == rows
    {
      this.rows := rows;
    }

    method Insert(r: Row)
      modifies this
      ensures rows == old(rows) + [r]
    {
      rows := rows + [r];
    }
  }

  /** What one chat-completion request gives back. */
  datatype LlmReply = Replied(content: Option<string>) | Failed

  /** The fallbacks of `neutralizeText` once a request is made: an empty or
      missing completion, and any error, give back the input. */
  function ApplyReply(text: string, reply: LlmReply): (r: string)
    ensures reply.Failed? || !Truthy(reply.content) ==> r == text
    ensures reply.Replied? && Truthy(reply.content) ==> r == reply.content.value
    ensures text != [] ==> r != []
  {
    match reply
    case Failed => text
    case Replied(content) => if Truthy(content) then content.value else text
  }
}
