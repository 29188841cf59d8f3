/** The per-record part of loading a chat export into the message table:
    mention rewriting, the author name taken from the file name, the deep
    link, and the row written for each record. */
module Ingest {

  import opened Common
  import opened Text
  import opened Decimal
  import opened Paths

  /** One record of the exported JSON file. */
  datatype Record = Record(id: int, timestamp: int, contents: string, attachments: string)

  /** Every link points into one fixed direct-message channel, whose id
      383761744830529537 is written out in the prefix. */
  const LinkPrefix: string := "https://discord.com/channels/@me/383761744830529537/"

  /** The deep link written for a message id. */
  function Link(messageId: int): string {
    LinkPrefix + IntText(messageId)
  }

  /** Reads a message id back out of a deep link. */
  function LinkId(link: string): Option<int> {
    if |LinkPrefix| <= |link| && link[..|LinkPrefix|] == LinkPrefix
    then ParseIntText(link[|LinkPrefix|..])
    else None
  }

  /** The link names its message: the id can be read back from it, so
      distinct ids never share a link. */
  lemma LinkRoundTrip(messageId: int)
    ensures LinkId(Link(messageId)) == Some(messageId)
  {
    var l := Link(messageId);
    assert l[..|LinkPrefix|] == LinkPrefix;
    assert l[|LinkPrefix|..] == IntText(messageId);
    IntTextRoundTrip(messageId);
  }

  lemma LinkInjective(a: int, b: int)
    requires Link(a) == Link(b)
    ensures a == b
  {
    LinkRoundTrip(a);
    LinkRoundTrip(b);
  }

  /** The author name: the data file's base name without its extension. */
  function AuthorName(dataPath: string): string {
    SplitExt(Basename(dataPath)).0
  }

  /** The author name is a prefix of the file's base name that holds no
      `/`, and what follows it is the file's extension. */
  lemma AuthorNameOfPath(dataPath: string)
    ensures var base := Basename(dataPath);
            && '/' !in AuthorName(dataPath)
            && AuthorName(dataPath) + SplitExt(base).1 == base
  {
    var base := Basename(dataPath);
    var name := SplitExt(base).0;
    assert forall k :: 0 <= k < |name| ==> name[k] == base[k];
  }

  /** The text a user mention has in the export. */
  function MentionOf(userId: string): string {
    "<@" + userId + ">"
  }

  /** `contents` after the replacements for the first `|entries|` mapping
      entries, in the mapping's iteration order. */
  function Mentioned(contents: string, entries: seq<(string, string)>): string
    decreases |entries|
  {
    if entries == [] then contents
    else
      var last := entries[|entries| - 1];
      ReplaceAll(Mentioned(contents, entries[..|entries| - 1]), MentionOf(last.0), "@" + last.1)
  }

  /** `convert_mentions`: replaces `<@id>` by `@name` for each entry of the
      id-to-name mapping in turn. */
  method ConvertMentions(contents: string, idToName: seq<(string, string)>) returns (r: string)
    ensures r == Mentioned(contents, idToName)
    ensures idToName == [] ==> r == contents
  {
    r := contents;
    for i := 0 to |idToName|
      invariant r == Mentioned(contents, idToName[..i])
    {
      var (userId, name) := idToName[i];
      assert idToName[..i + 1][..i] == idToName[..i];
      r := ReplaceAll(r, MentionOf(userId), "@" + name);
    }
    assert idToName[..|idToName|] == idToName;
  }

  /** Applying a mapping in two parts is applying it whole. */
  lemma {:induction false} MentionedAppend(contents: string, first: seq<(string, string)>, second: seq<(string, string)>)
    ensures Mentioned(contents, first + second) == Mentioned(Mentioned(contents, first), second)
    decreases |second|
  {
    if second == [] {
      assert first + second == first;
    } else {
      var all := first + second;
      assert all[..|all| - 1] == first + second[..|second| - 1];
      assert all[|all| - 1] == second[|second| - 1];
      MentionedAppend(contents, first, second[..|second| - 1]);
    }
  }

  /** Text with no `<@` in it has no mention to rewrite, whatever the
      mapping. */
  lemma {:induction false} MentionedWithoutMarker(contents: string, entries: seq<(string, string)>)
    requires Free(contents, "<@")
    ensures Mentioned(contents, entries) == contents
    decreases |entries|
  {
    if entries != [] {
      var last := entries[|entries| - 1];
      MentionedWithoutMarker(contents, entries[..|entries| - 1]);
      assert MentionOf(last.0) == "<@" + (last.0 + ">");
      FreeOfExtension(contents, "<@", last.0 + ">");
      ReplaceAbsent(contents, MentionOf(last.0), "@" + last.1);
    }
  }

  /** One mapping entry: `contents` is its pieces joined by `<@id>`, no
      piece holds `<@id>`, and the result is the same pieces joined by
      `@name`. So every non-overlapping occurrence, left to right, is
      rewritten and nothing else changes. */
  lemma MentionedOneEntry(contents: string, userId: string, name: string)
    ensures var pieces := SplitOn(contents, MentionOf(userId));
            && JoinWith(pieces, MentionOf(userId)) == contents
            && (forall k :: 0 <= k < |pieces| ==> Free(pieces[k], MentionOf(userId)))
            && Mentioned(contents, [(userId, name)]) == JoinWith(pieces, "@" + name)
  {
    var entries := [(userId, name)];
    assert entries[..0] == [];
    SplitJoin(contents, MentionOf(userId));
    SplitPiecesFree(contents, MentionOf(userId));
    ReplaceIsJoinOfSplit(contents, MentionOf(userId), "@" + name);
  }

  /** The row `insert_data` writes for one record. */
  function ToRow(r: Record, name: string, idToName: seq<(string, string)>): Message {
    Message(r.id, name, r.timestamp, Mentioned(r.contents, idToName), r.attachments, Link(r.id))
  }

  /** A row keeps the record's id, timestamp and attachments, carries the
      author name it was given, rewrites only the contents, and its link
      leads back to its own id. */
  lemma RowOfRecord(r: Record, name: string, idToName: seq<(string, string)>)
    ensures var row := ToRow(r, name, idToName);
            && row.id == r.id && row.timestamp == r.timestamp && row.attachments == r.attachments
            && row.name == name
            && row.contents == Mentioned(r.contents, idToName)
            && LinkId(row.link) == Some(r.id)
  {
    LinkRoundTrip(r.id);
  }

  /** The insert loop of `insert_data`: one row per record, in file order,
      each carrying the given author name. */
  method InsertRecords(data: seq<Record>, name: string, idToName: seq<(string, string)>)
    returns (rows: seq<Message>)
    ensures |rows| == |data|
    ensures forall k :: 0 <= k < |data| ==> rows[k] == ToRow(data[k], name, idToName)
  {
    rows := [];
    for i := 0 to |data|
      invariant |rows| == i
      invariant forall k :: 0 <= k < i ==> rows[k] == ToRow(data[k], name, idToName)
    {
      var record := data[i];
      var contents := ConvertMentions(record.contents, idToName);
      rows := rows + [Message(record.id, name, record.timestamp, contents, record.attachments, Link(record.id))];
    }
  }

  /** `insert_data` without the file and database I/O: the author name is
      derived from the data file's path once, then every record becomes a
      row. */
  method InsertData(data: seq<Record>, dataPath: string, idToName: seq<(string, string)>)
    returns (rows: seq<Message>)
    ensures |rows| == |data|
    ensures forall k :: 0 <= k < |data| ==> rows[k] == ToRow(data[k], AuthorName(dataPath), idToName)
  {
    var name := AuthorName(dataPath);
    rows := InsertRecords(data, name, idToName);
  }
}
