/** Attachments of a reply and the request body they lead to (`addFile`'s map
    and `finalizeData`'s multipart body).  The source keeps attachments in a
    `HashMap` from stored file name to stream; its iteration order is not
    defined, so here the map is an association list whose order is the
    iteration order: a new name is appended and an existing name keeps its
    place while its stream is replaced. */
module Attachments {
  import opened Wrappers
  import opened ReplyEnvelope

  /** An input stream, known only by identity. */
  type StreamId = nat

  datatype FileEntry = FileEntry(name: string, stream: StreamId)

  /** No stored name occurs twice, as for the keys of a map. */
  predicate DistinctNames(files: seq<FileEntry>) {
    forall i, j :: 0 <= i < j < |files| ==> files[i].name != files[j].name
  }

  /** The stream stored under `name`, or None (`files.get(name)`). */
  function Lookup(files: seq<FileEntry>, name: string): (r: Option<StreamId>)
    ensures r.None? <==> forall i :: 0 <= i < |files| ==> files[i].name != name
  {
    if files == [] then None
    else if files[0].name == name then Some(files[0].stream)
    else Lookup(files[1..], name)
  }

  /** `files.put(name, stream)`: the entry already stored under `name` gets the
      new stream in its place; a new name goes to the end.  The names of a map
      are distinct. */
  function Put(files: seq<FileEntry>, name: string, stream: StreamId): (r: seq<FileEntry>)
    requires DistinctNames(files)
    ensures |r| == if Lookup(files, name).None? then |files| + 1 else |files|
    ensures Lookup(files, name).None? ==> r == files + [FileEntry(name, stream)]
    ensures forall i :: 0 <= i < |files| ==>
      r[i] == if files[i].name == name then FileEntry(name, stream) else files[i]
    ensures DistinctNames(r)
  {
    if files == [] then [FileEntry(name, stream)]
    else if files[0].name == name then [FileEntry(name, stream)] + files[1..]
    else [files[0]] + Put(files[1..], name, stream)
  }

  /** After a put, the name maps to the new stream. */
  lemma {:induction false} PutLookupSame(files: seq<FileEntry>, name: string, stream: StreamId)
    requires DistinctNames(files)
    ensures Lookup(Put(files, name, stream), name) == Some(stream)
  {
    if files != [] && files[0].name != name {
      PutLookupSame(files[1..], name, stream);
    }
  }

  /** After a put, every other name maps to what it mapped to before. */
  lemma {:induction false} PutLookupOther(files: seq<FileEntry>, name: string, stream: StreamId, other: string)
    requires DistinctNames(files)
    requires other != name
    ensures Lookup(Put(files, name, stream), other) == Lookup(files, other)
  {
    if files != [] && files[0].name != name && files[0].name != other {
      PutLookupOther(files[1..], name, stream, other);
    }
  }

  /** The name under which `addFile` stores an attachment: with at least one
      attachment option given, the name gains the spoiler marker. */
  function StoredName(name: string, optionCount: nat): (stored: string)
    ensures |stored| == |name| + (if optionCount > 0 then |SpoilerPrefix| else 0)
    ensures stored[|stored| - |name|..] == name
    ensures optionCount > 0 ==> stored[..|SpoilerPrefix|] == SpoilerPrefix
  {
    if optionCount > 0 then SpoilerPrefix + name else name
  }

  const SpoilerPrefix: string := "SPOILER_"

  /** Two files added with the same spoiler choice get the same stored name only
      when their names were equal, and a spoiler name never equals the plain
      name of the same file. */
  lemma StoredNamesDistinct(a: string, b: string, m: nat, n: nat)
    ensures (m > 0) == (n > 0) && StoredName(a, m) == StoredName(b, n) ==> a == b
    ensures m > 0 ==> StoredName(a, m) != StoredName(a, 0)
  {
  }

  function DigitChar(d: nat): char
    requires d < 10
  {
    "0123456789"[d]
  }

  /** Decimal text of a natural number, as Java's `"file" + i` prints it. */
  function NatToString(n: nat): (s: string)
    ensures |s| >= 1
    ensures forall k :: 0 <= k < |s| ==> '0' <= s[k] <= '9'
    decreases n
  {
    if n < 10 then [DigitChar(n)] else NatToString(n / 10) + [DigitChar(n % 10)]
  }

  /** Distinct numbers print differently. */
  lemma {:induction false} NatToStringInjective(m: nat, n: nat)
    requires NatToString(m) == NatToString(n)
    ensures m == n
    decreases m
  {
    var s, t := NatToString(m), NatToString(n);
    if m < 10 && n < 10 {
      assert s[0] == DigitChar(m) && t[0] == DigitChar(n);
    } else if m >= 10 && n >= 10 {
      assert s[|s| - 1] == DigitChar(m % 10) && t[|t| - 1] == DigitChar(n % 10);
      assert s[..|s| - 1] == NatToString(m / 10);
      assert t[..|t| - 1] == NatToString(n / 10);
      NatToStringInjective(m / 10, n / 10);
    }
  }

  /** The form-data field of the i-th attachment: `file0`, `file1`, ... */
  function FileFieldName(i: nat): string {
    "file" + NatToString(i)
  }

  const PayloadFieldName: string := "payload_json"

  /** One form-data part: an attachment stream under its stored file name, or
      the serialised reply document. */
  datatype Part =
    | FilePart(field: string, fileName: string, stream: StreamId)
    | JsonPart(field: string, doc: Json)

  /** A request body: the reply document alone, or a multipart body. */
  datatype Body = PlainBody(doc: Json) | Multipart(parts: seq<Part>)

  /** The parts of a multipart body are told apart by their field names: the
      attachment fields are pairwise distinct and none is `payload_json`. */
  lemma FieldNamesDistinct(i: nat, j: nat)
    ensures FileFieldName(i) != PayloadFieldName
    ensures FileFieldName(i) == FileFieldName(j) ==> i == j
  {
    assert FileFieldName(i)[0] == 'f' != PayloadFieldName[0];
    if FileFieldName(i) == FileFieldName(j) {
      assert NatToString(i) == FileFieldName(i)[4..];
      assert NatToString(j) == FileFieldName(j)[4..];
      NatToStringInjective(i, j);
    }
  }
}
