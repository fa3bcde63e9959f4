/** The files behind one log stream: a live file that is appended to, and archived slices that are
    numbered from 1. Compression of the slices is abstract. */
module LogStore {
  import opened Common
  import opened Utf8

  const MAX_SLICES: nat := 99_999

  lemma OneCharacterFits(text: string)
    requires text != ""
    ensures |Encode(text[..1])| <= 4
  {
    assert text[..1] == [text[0]];
    assert Encode([text[0]]) == CharBytes(text[0]) + Encode([text[0]][1..]);
  }

  /** Cuts `text` at the last character boundary within `byteLimit` bytes, by binary search on the
      number of characters. */
  method TakeTextPrefixByBytes(text: string, byteLimit: int) returns (prefix: string, rest: string)
    ensures prefix + rest == text
    ensures 0 <= byteLimit ==> |Encode(prefix)| <= byteLimit
    ensures byteLimit < 0 ==> prefix == ""
    ensures forall k :: |prefix| < k <= |text| ==> byteLimit < |Encode(text[..k])|
    ensures text != "" && 4 <= byteLimit ==> prefix != ""
  {
    if text != "" {
      OneCharacterFits(text);
    }
    if byteLimit <= 0 || text == "" {
      forall k | 0 < k <= |text| ensures byteLimit < |Encode(text[..k])| {
        EncodedLengthGrows(text, 0, k);
      }
      return "", text;
    }
    assert text[..|text|] == text;
    if |Encode(text)| <= byteLimit {
      return text, "";
    }
    var left, right := 0, |text|;
    while left < right
      invariant 0 <= left <= right <= |text|
      invariant |Encode(text[..left])| <= byteLimit
      invariant right < |text| ==> byteLimit < |Encode(text[..right + 1])|
    {
      var mid := (left + right + 1) / 2;
      if |Encode(text[..mid])| <= byteLimit {
        left := mid;
      } else {
        right := mid - 1;
      }
    }
    forall k | left < k <= |text| ensures byteLimit < |Encode(text[..k])| {
      if left + 1 < k {
        EncodedLengthGrows(text, left + 1, k);
      }
    }
    prefix, rest := text[..left], text[left..];
  }

  function Flatten(parts: seq<string>): string {
    if parts == [] then "" else Flatten(parts[..|parts| - 1]) + parts[|parts| - 1]
  }

  /** What a reader gets from slices 1 to `n` in order followed by the live file, if every file is
      well-formed UTF-8 by itself. */
  function ReadBack(archives: map<nat, seq<Byte>>, live: seq<Byte>, n: nat): Option<string>
    requires forall i :: 1 <= i <= n ==> i in archives
  {
    match Decode(live)
    case None => None
    case Some(tail) =>
      match ReadSlices(archives, n)
      case None => None
      case Some(front) => Some(front + tail)
  }

  function ReadSlices(archives: map<nat, seq<Byte>>, n: nat): Option<string>
    requires forall i :: 1 <= i <= n ==> i in archives
  {
    if n == 0 then Some("")
    else
      match ReadSlices(archives, n - 1)
      case None => None
      case Some(front) =>
        match Decode(archives[n])
        case None => None
        case Some(part) => Some(front + part)
  }

  lemma {:induction false} ReadSlicesOfParts(archives: map<nat, seq<Byte>>, parts: seq<string>, n: nat)
    requires n <= |parts|
    requires forall i :: 1 <= i <= n ==> i in archives && archives[i] == Encode(parts[i - 1])
    ensures ReadSlices(archives, n) == Some(Flatten(parts[..n]))
  {
    if n > 0 {
      ReadSlicesOfParts(archives, parts, n - 1);
      DecodeEncode(parts[n - 1]);
      assert parts[..n][..n - 1] == parts[..n - 1];
    }
  }

  class LogFiles {
    var archives: map<nat, seq<Byte>>
    var live: seq<Byte>
    ghost var parts: seq<string>  // the text of each archived slice
    ghost var tail: string        // the text of the live file

    /** Slices are numbered 1 to n without holes, and no character is split between two files. */
    ghost predicate Valid()
      reads this
    {
      && |parts| <= MAX_SLICES
      && (forall i: nat :: i in archives <==> 1 <= i <= |parts|)
      && (forall i :: 1 <= i <= |parts| ==> archives[i] == Encode(parts[i - 1]))
      && live == Encode(tail)
    }

    /** All the text ever appended. */
    ghost function Written(): string
      reads this
    {
      Flatten(parts) + tail
    }

    /** The size bounds that hold as long as the limit of a slice is not changed. */
    ghost predicate WithinLimit(maxBytes: nat)
      requires Valid()
      reads this
    {
      && |live| <= maxBytes
      && forall i :: 1 <= i <= |parts| ==> maxBytes - 3 <= |archives[i]| <= maxBytes
    }

    constructor ()
      ensures Valid() && Written() == "" && parts == [] && live == []
      ensures forall maxBytes: nat :: WithinLimit(maxBytes)
    {
      archives, live, parts, tail := map[], [], [], "";
    }

    /** A reader of the files gets the appended text back. */
    lemma ReadBackIsWritten()
      requires Valid()
      ensures ReadBack(archives, live, |parts|) == Some(Written())
    {
      ReadSlicesOfParts(archives, parts, |parts|);
      assert parts[..|parts|] == parts;
      DecodeEncode(tail);
    }

    method NextLogArchiveIndex() returns (r: Option<nat>)
      requires Valid()
      ensures r == if |parts| < MAX_SLICES then Some(|parts| + 1) else None
    {
      for index := 1 to MAX_SLICES + 1
        invariant forall i :: 1 <= i < index ==> i in archives
      {
        if index !in archives {
          assert index > 1 ==> index - 1 in archives;
          return Some(index);
        }
      }
      assert MAX_SLICES in archives;
      return None;
    }

    /** Moves a non-empty live file to the next free slice number; fails when all are taken. */
    method RotateLogStream() returns (ok: bool)
      requires Valid()
      modifies this
      ensures Valid() && Written() == old(Written())
      ensures ok ==> live == []
      ensures ok && old(live) == [] ==> parts == old(parts)
      ensures ok && old(live) != [] ==>
                parts == old(parts) + [old(tail)] && archives == old(archives)[|parts| := old(live)]
      ensures !ok || old(live) == [] ==> parts == old(parts) && archives == old(archives) && live == old(live)
      ensures !ok ==> |parts| == MAX_SLICES
      ensures forall m: nat :: old(WithinLimit(m)) && (old(live) == [] || m - 3 <= |old(live)|) ==> WithinLimit(m)
    {
      if live == [] {
        return true;
      }
      var index := NextLogArchiveIndex();
      if index.None? {
        return false;
      }
      archives := archives[index.value := live];
      live := [];
      assert (parts + [tail])[..|parts|] == parts;
      parts, tail := parts + [tail], "";
      return true;
    }

    method AppendLive(chunk: string)
      requires Valid()
      modifies this
      ensures Valid() && Written() == old(Written()) + chunk
      ensures parts == old(parts) && archives == old(archives) && tail == old(tail) + chunk
      ensures |live| == |old(live)| + |Encode(chunk)|
      ensures forall m: nat :: old(WithinLimit(m)) && |live| <= m ==> WithinLimit(m)
    {
      EncodeConcat(tail, chunk);
      live, tail := live + Encode(chunk), tail + chunk;
    }

    /** One pass of the append loop: makes room if the live file is full, then writes as much of
        `text` as fits, or, when not even one character fits, starts a new live file. */
    method FillLive(text: string, maxBytes: nat) returns (ok: bool, ghost taken: string, rest: string)
      requires Valid() && 4 <= maxBytes && text != ""
      modifies this
      ensures Valid() && old(parts) <= parts
      ensures text == taken + rest && Written() == old(Written()) + taken
      ensures ok ==> taken != "" || (|live| == 0 && |old(live)| > 0)
      ensures !ok ==> |parts| == MAX_SLICES && maxBytes - 3 <= |live|
      ensures old(WithinLimit(maxBytes)) ==> WithinLimit(maxBytes)
    {
      taken, rest := "", text;
      var remainingBytes := maxBytes - |live|;
      if remainingBytes <= 0 {
        ok := RotateLogStream();
        if !ok {
          return;
        }
        remainingBytes := maxBytes;
      }
      var chunk, afterChunk := TakeTextPrefixByBytes(text, remainingBytes);
      if chunk == "" {
        ok := RotateLogStream();
        return;
      }
      taken, rest := chunk, afterChunk;
      AppendLive(chunk);
      ok := true;
      if |live| >= maxBytes {
        ok := RotateLogStream();
      }
    }

    /** Appends `text`, filling the live file up to `maxBytes` and rotating it as often as needed. Fails, with a
        prefix of `text` written, when a new slice is needed and all numbers are taken; the live file then has
        no room for every character. */
    method AppendLogChunk(text: string, maxBytes: nat) returns (ok: bool)
      requires Valid() && 4 <= maxBytes
      modifies this
      ensures Valid() && old(parts) <= parts
      ensures ok ==> Written() == old(Written()) + text
      ensures !ok ==> text != "" && old(Written()) <= Written() <= old(Written()) + text
      ensures !ok ==> |parts| == MAX_SLICES && maxBytes - 3 <= |live|
      ensures old(WithinLimit(maxBytes)) ==> WithinLimit(maxBytes)
    {
      var remaining := text;
      ghost var appended := "";
      ok := true;
      while ok && remaining != ""
        invariant Valid() && old(parts) <= parts
        invariant text == appended + remaining && Written() == old(Written()) + appended
        invariant !ok ==> text != "" && |parts| == MAX_SLICES && maxBytes - 3 <= |live|
        invariant old(WithinLimit(maxBytes)) ==> WithinLimit(maxBytes)
        decreases ok, |remaining|, |live|
      {
        ghost var taken, before := "", Written();
        ok, taken, remaining := FillLive(remaining, maxBytes);
        assert Written() == old(Written()) + (appended + taken);
        appended := appended + taken;
      }
    }
  }
}
