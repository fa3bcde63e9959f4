/** The control plane's side of log upload: one row and one set of files per task and stream, and the
    handler that accepts chunks stamped with the offset of their first character. */
module LogReceiver {
  import opened Common
  import opened LogStore
  import Utf8

  const PREVIEW_CHARS: nat := 4000

  datatype LogRow = LogRow(lastOffset: nat, preview: string, truncated: bool)

  /** What the handler knows about a stream: its row, if it has one, and the text in its files. */
  datatype StreamState = StreamState(row: Option<LogRow>, stored: string)

  datatype ChunkReply =
    | Stored(storedChars: nat)
    | MustStartAtZero
    | OffsetGap(expected: nat)
    | StreamTruncated
    | QuotaExceeded
    | TooManySlices

  const EMPTY := StreamState(None, "")

  function LastChars(s: string, n: nat): string {
    if |s| <= n then s else s[|s| - n..]
  }

  /** The part of a chunk that lies past what is already stored. */
  function NewText(lastOffset: nat, offsetStart: nat, text: string): string {
    if lastOffset <= offsetStart then text
    else if |text| <= lastOffset - offsetStart then ""
    else text[lastOffset - offsetStart..]
  }

  /** Accepts or refuses one chunk. `overQuota` says that storing its new part would exceed the quota. */
  function ReceiveChunk(s: StreamState, offsetStart: nat, text: string, overQuota: bool): (StreamState, ChunkReply) {
    match s.row
    case None =>
      if offsetStart != 0 then (s, MustStartAtZero)
      else if text != "" && overQuota then (s.(row := Some(LogRow(0, "", true))), QuotaExceeded)
      else (StreamState(Some(LogRow(|text|, LastChars(text, PREVIEW_CHARS), false)), s.stored + text), Stored(|text|))
    case Some(row) =>
      if offsetStart > row.lastOffset then (s, OffsetGap(row.lastOffset))
      else if row.truncated then (s, StreamTruncated)
      else
        var added := NewText(row.lastOffset, offsetStart, text);
        if added != "" && overQuota then (s.(row := Some(row.(truncated := true))), QuotaExceeded)
        else
          (StreamState(Some(LogRow(Max(row.lastOffset, offsetStart + |text|),
                                   LastChars(row.preview + added, PREVIEW_CHARS),
                                   false)),
                       s.stored + added),
           Stored(|added|))
  }

  /** The row always describes the stored text, whoever sends the chunks. */
  ghost predicate RowDescribesText(s: StreamState) {
    match s.row
    case None => s.stored == ""
    case Some(row) => row.lastOffset == |s.stored| && IsPreview(row.preview, s.stored)
  }

  /** The preview is the end of the stored text, 4000 characters of it if there are so many. */
  predicate IsPreview(preview: string, stored: string) {
    |preview| == Min(4000, |stored|) && preview == stored[|stored| - |preview|..]
  }

  lemma PreviewUnique(preview: string, stored: string)
    ensures IsPreview(preview, stored) <==> preview == LastChars(stored, PREVIEW_CHARS)
  {
  }

  datatype Chunk = Chunk(offsetStart: nat, text: string, overQuota: bool)

  function ReceiveAll(chunks: seq<Chunk>): StreamState {
    if chunks == [] then EMPTY
    else
      var last := chunks[|chunks| - 1];
      ReceiveChunk(ReceiveAll(chunks[..|chunks| - 1]), last.offsetStart, last.text, last.overQuota).0
  }

  lemma LastCharsOfAppended(s: string, t: string, n: nat)
    ensures LastChars(LastChars(s, n) + t, n) == LastChars(s + t, n)
  {
  }

  lemma PreviewGrows(preview: string, stored: string, added: string)
    requires IsPreview(preview, stored)
    ensures IsPreview(LastChars(preview + added, PREVIEW_CHARS), stored + added)
  {
    PreviewUnique(preview, stored);
    LastCharsOfAppended(stored, added, PREVIEW_CHARS);
    PreviewUnique(LastChars(stored + added, PREVIEW_CHARS), stored + added);
  }

  lemma ReceiveKeepsRow(s: StreamState, offsetStart: nat, text: string, overQuota: bool)
    requires RowDescribesText(s)
    ensures RowDescribesText(ReceiveChunk(s, offsetStart, text, overQuota).0)
  {
    if s.row.Some? {
      PreviewGrows(s.row.value.preview, s.stored, NewText(s.row.value.lastOffset, offsetStart, text));
    } else {
      PreviewUnique(LastChars(text, PREVIEW_CHARS), text);
      assert s.stored + text == text;
    }
  }

  /** The part of a chunk that reaches past the stored text; a chunk that leaves a gap has none. */
  function Beyond(stored: string, offsetStart: nat, text: string): string {
    if offsetStart <= |stored| < offsetStart + |text| then text[|stored| - offsetStart..] else ""
  }

  /** A chunk may be stored: the first starts at zero, a later one leaves no gap and finds the stream whole. */
  predicate Welcome(s: StreamState, offsetStart: nat) {
    if s.row.None? then offsetStart == 0 else offsetStart <= |s.stored| && !s.row.value.truncated
  }

  /** Each answer with its exact condition, told by the stored text: `overQuota` speaks of the part beyond it. */
  ghost predicate ChunkAnswer(s: StreamState, s': StreamState, offsetStart: nat, text: string, overQuota: bool,
                              reply: ChunkReply)
  {
    var beyond := Beyond(s.stored, offsetStart, text);
    && (reply == MustStartAtZero <==> s.row.None? && 0 < offsetStart)
    && (reply == OffsetGap(|s.stored|) <==> s.row.Some? && |s.stored| < offsetStart)
    && (reply == StreamTruncated <==> s.row.Some? && offsetStart <= |s.stored| && s.row.value.truncated)
    && (reply == QuotaExceeded <==> Welcome(s, offsetStart) && beyond != "" && overQuota)
    && (reply == Stored(|beyond|) <==> Welcome(s, offsetStart) && !(beyond != "" && overQuota))
    && (reply.Stored? ==>
          && s'.stored == s.stored + beyond && s'.row.Some?
          && !s'.row.value.truncated && s'.row.value.lastOffset == |s'.stored|
          && IsPreview(s'.row.value.preview, s'.stored))
    && (reply == QuotaExceeded ==>
          && s'.stored == s.stored && s'.row.Some?
          && s'.row.value.truncated && s'.row.value.lastOffset == |s.stored|
          && IsPreview(s'.row.value.preview, s.stored))
    && (!reply.Stored? && reply != QuotaExceeded ==> s' == s)
  }

  lemma NewTextIsBeyond(stored: string, offsetStart: nat, text: string)
    requires offsetStart <= |stored|
    ensures NewText(|stored|, offsetStart, text) == Beyond(stored, offsetStart, text)
    ensures Max(|stored|, offsetStart + |text|) == |stored + Beyond(stored, offsetStart, text)|
  {
  }

  lemma ChunkMeans(s: StreamState, offsetStart: nat, text: string, overQuota: bool)
    requires RowDescribesText(s)
    ensures var (s', reply) := ReceiveChunk(s, offsetStart, text, overQuota);
            ChunkAnswer(s, s', offsetStart, text, overQuota, reply)
  {
    ReceiveKeepsRow(s, offsetStart, text, overQuota);
    if offsetStart <= |s.stored| {
      NewTextIsBeyond(s.stored, offsetStart, text);
    }
  }

  /** After any chunks from any sender, in any order and with any overlaps, the offset is the number of
      characters stored and the preview, computed only from old previews, is the end of that text. */
  lemma {:induction false} PreviewIsEndOfStoredText(chunks: seq<Chunk>)
    ensures RowDescribesText(ReceiveAll(chunks))
  {
    if chunks != [] {
      var n := |chunks| - 1;
      PreviewIsEndOfStoredText(chunks[..n]);
      ReceiveKeepsRow(ReceiveAll(chunks[..n]), chunks[n].offsetStart, chunks[n].text, chunks[n].overQuota);
    }
  }

  /** Receiving a chunk a second time changes nothing: the receiver is idempotent. */
  lemma ReceiveTwice(s: StreamState, offsetStart: nat, text: string, overQuota: bool, again: bool)
    requires RowDescribesText(s)
    requires ReceiveChunk(s, offsetStart, text, overQuota).1.Stored?
    ensures var s1 := ReceiveChunk(s, offsetStart, text, overQuota).0;
            ReceiveChunk(s1, offsetStart, text, again) == (s1, Stored(0))
  {
    var s1 := ReceiveChunk(s, offsetStart, text, overQuota).0;
    ReceiveKeepsRow(s, offsetStart, text, overQuota);
    assert s1.row.value.preview + "" == s1.row.value.preview;
    assert s1.stored + "" == s1.stored;
    assert LastChars(s1.row.value.preview, PREVIEW_CHARS) == s1.row.value.preview;
  }

  /** The quota is tested for the part of the chunk that the row's offset shows to be new. */
  function ReceiveWithin(s: StreamState, offsetStart: nat, text: string, usageBytes: nat, quotaBytes: nat)
    : (StreamState, ChunkReply)
  {
    var added := NewText(if s.row.Some? then s.row.value.lastOffset else 0, offsetStart, text);
    ReceiveChunk(s, offsetStart, text, usageBytes + |Utf8.Encode(added)| > quotaBytes)
  }

  lemma ChunkIsAnswered(s: StreamState, offsetStart: nat, text: string, usageBytes: nat, quotaBytes: nat)
    requires RowDescribesText(s)
    ensures var (s', reply) := ReceiveWithin(s, offsetStart, text, usageBytes, quotaBytes);
            var size := |Utf8.Encode(Beyond(s.stored, offsetStart, text))|;
            ChunkAnswer(s, s', offsetStart, text, usageBytes + size > quotaBytes, reply) && RowDescribesText(s')
  {
    var added := NewText(if s.row.Some? then s.row.value.lastOffset else 0, offsetStart, text);
    ChunkMeans(s, offsetStart, text, usageBytes + |Utf8.Encode(added)| > quotaBytes);
    ReceiveKeepsRow(s, offsetStart, text, usageBytes + |Utf8.Encode(added)| > quotaBytes);
    if offsetStart <= |s.stored| {
      NewTextIsBeyond(s.stored, offsetStart, text);
    }
  }

  // ---- what the reply calls stored bytes ----

  predicate Ascii(s: string) {
    forall i :: 0 <= i < |s| ==> s[i] as int < 0x80
  }

  lemma {:induction false} EncodedLength(s: string)
    ensures |s| <= |Utf8.Encode(s)|
    ensures |s| == |Utf8.Encode(s)| <==> Ascii(s)
  {
    if s != "" {
      EncodedLength(s[1..]);
      assert |Utf8.CharBytes(s[0])| == 1 <==> s[0] as int < 0x80;
      assert forall i :: 0 < i < |s| ==> s[i] == s[1..][i - 1];
    }
  }

  /** The `stored_bytes` of a reply is the number of bytes the stored text grew by exactly when every character
      added is ASCII; otherwise it is less. */
  lemma StoredBytesIffAscii(s: StreamState, offsetStart: nat, text: string, overQuota: bool)
    requires ReceiveChunk(s, offsetStart, text, overQuota).1.Stored?
    ensures var (s', reply) := ReceiveChunk(s, offsetStart, text, overQuota);
            var added := if s.row.Some? then NewText(s.row.value.lastOffset, offsetStart, text) else text;
            var grown := |Utf8.Encode(s'.stored)| - |Utf8.Encode(s.stored)|;
            && s'.stored == s.stored + added
            && reply.storedChars <= grown
            && (reply.storedChars == grown <==> Ascii(added))
  {
    var added := if s.row.Some? then NewText(s.row.value.lastOffset, offsetStart, text) else text;
    Utf8.EncodeConcat(s.stored, added);
    EncodedLength(added);
  }

  /** One accented letter: the reply says one, the file grows by two bytes. */
  lemma StoredBytesTooFew()
    ensures var text := [0xE9 as char];
            var (s', reply) := ReceiveChunk(EMPTY, 0, text, false);
            reply == Stored(1) && |Utf8.Encode(s'.stored)| == 2
  {
    var text := [0xE9 as char];
    assert "" + text == text;
    assert Utf8.Encode(text) == Utf8.CharBytes(text[0]) + Utf8.Encode(text[1..]);
  }

  class TaskLogStream {
    var row: Option<LogRow>
    const files: LogFiles

    ghost predicate Valid()
      reads this, files
    {
      files.Valid()
    }

    ghost function State(): StreamState
      reads this, files
    {
      StreamState(row, files.Written())
    }

    constructor ()
      ensures Valid() && fresh(files) && State() == EMPTY
    {
      row := None;
      files := new LogFiles();
    }

    /** Every answer has its exact condition, told by the text stored so far. */
    method TaskLogChunk(offsetStart: nat, text: string, usageBytes: nat, quotaBytes: nat, maxStreamBytes: nat)
      returns (reply: ChunkReply)
      requires Valid() && 4 <= maxStreamBytes
      modifies this, files
      ensures Valid()
      ensures old(files.WithinLimit(maxStreamBytes)) ==> files.WithinLimit(maxStreamBytes)
      ensures old(RowDescribesText(State())) && reply != TooManySlices ==>
                var size := |Utf8.Encode(Beyond(old(files.Written()), offsetStart, text))|;
                ChunkAnswer(old(State()), State(), offsetStart, text, usageBytes + size > quotaBytes, reply)
                && RowDescribesText(State())
      ensures reply == TooManySlices ==>
                && row == old(row) && |files.parts| == 99_999 && maxStreamBytes - 3 <= |files.live|
                && old(files.Written()) <= files.Written()
      ensures old(RowDescribesText(State())) && reply == TooManySlices ==>
                var beyond := Beyond(old(files.Written()), offsetStart, text);
                && Welcome(old(State()), offsetStart) && beyond != ""
                && usageBytes + |Utf8.Encode(beyond)| <= quotaBytes
    {
      ghost var before := State();
      reply := ReceiveTaskChunk(offsetStart, text, usageBytes, quotaBytes, maxStreamBytes);
      if RowDescribesText(before) {
        ChunkIsAnswered(before, offsetStart, text, usageBytes, quotaBytes);
      }
    }

    /** What an offset leaves to be stored, or why it cannot be: later, the quota decides. */
    method NewPart(offsetStart: nat, text: string) returns (refusal: Option<ChunkReply>, appendText: string)
      ensures appendText == NewText(if row.Some? then row.value.lastOffset else 0, offsetStart, text)
              || refusal.Some?
      ensures refusal.Some? ==>
                forall q: bool :: ReceiveChunk(State(), offsetStart, text, q) == (State(), refusal.value)
      ensures refusal.None? ==>
                (row.None? ==> offsetStart == 0)
                && (row.Some? ==> offsetStart <= row.value.lastOffset && !row.value.truncated)
      ensures refusal != Some(TooManySlices)
    {
      appendText := text;
      if row.None? && offsetStart != 0 {
        return Some(MustStartAtZero), text;
      }
      if row.Some? {
        var lastOffset := row.value.lastOffset;
        if offsetStart < lastOffset {
          var overlap := lastOffset - offsetStart;
          appendText := if overlap >= |text| then "" else text[overlap..];
        } else if offsetStart > lastOffset {
          return Some(OffsetGap(lastOffset)), text;
        }
        if row.value.truncated {
          return Some(StreamTruncated), text;
        }
      }
      refusal := None;
    }

    /** The row is written only if the files could be; an archive that is full leaves it unchanged. */
    method ReceiveTaskChunk(offsetStart: nat, text: string, usageBytes: nat, quotaBytes: nat, maxStreamBytes: nat)
      returns (reply: ChunkReply)
      requires Valid() && 4 <= maxStreamBytes
      modifies this, files
      ensures Valid()
      ensures old(files.WithinLimit(maxStreamBytes)) ==> files.WithinLimit(maxStreamBytes)
      ensures reply != TooManySlices ==>
                (State(), reply) == ReceiveWithin(old(State()), offsetStart, text, usageBytes, quotaBytes)
      ensures reply == TooManySlices ==>
                && (exists n: nat :: 0 < n && ReceiveWithin(old(State()), offsetStart, text, usageBytes, quotaBytes).1
                                              == Stored(n))
                && row == old(row) && |files.parts| == MAX_SLICES && maxStreamBytes - 3 <= |files.live|
                && old(files.Written()) <= files.Written()
    {
      var refusal, appendText := NewPart(offsetStart, text);
      if refusal.Some? {
        return refusal.value;
      }
      var existing := row;
      var appendBytes := |Utf8.Encode(appendText)|;
      if appendBytes > 0 && usageBytes + appendBytes > quotaBytes {
        row := Some(if existing.None? then LogRow(0, "", true) else existing.value.(truncated := true));
        return QuotaExceeded;
      }
      ghost var expected := ReceiveWithin(State(), offsetStart, text, usageBytes, quotaBytes);
      assert expected.1 == Stored(|appendText|) && expected.0.stored == files.Written() + appendText;
      var ok := files.AppendLogChunk(appendText, maxStreamBytes);
      if !ok {
        return TooManySlices;
      }
      if existing.None? {
        row := Some(LogRow(offsetStart + |text|, LastChars(appendText, PREVIEW_CHARS), false));
      } else {
        row := Some(LogRow(Max(existing.value.lastOffset, offsetStart + |text|),
                           LastChars(existing.value.preview + appendText, PREVIEW_CHARS),
                           false));
      }
      return Stored(|appendText|);
    }
  }
}
