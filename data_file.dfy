/**
 * The data document on disk: the lenient read, the write through a temporary
 * file that is then renamed over the data file, and the two actions that use
 * them directly (get_data and save_data). JSON encoding and decoding are
 * abstract: a file either holds the encoding of a value or text that does not
 * decode.
 */
module DataFile {
  import opened Wrappers
  import opened Json
  import opened Auth

  /** The content of one file. */
  datatype Stored = Encoded(doc: Value) | Unparseable

  /** `json_decode($content, true)`, with `None` for a parse error. */
  function Decode(s: Stored): Option<Value> {
    match s
    case Encoded(v) => Some(v)
    case Unparseable => None
  }

  /** The document returned when there is nothing usable on disk. */
  const EmptyDocument: Value :=
    Object([("assets", List([])), ("coins", List([])), ("priceHistory", List([]))])

  /**
   * readDataFile. `file` is the data file (`None`: it does not exist) and
   * `openOk` whether `fopen` succeeds. A missing or unopenable file, and content
   * that decodes to a falsy value or not at all, give the empty document.
   */
  function ReadDataFile(file: Option<Stored>, openOk: bool): (v: Value)
    ensures !Falsy(v)
    ensures v == EmptyDocument || (openOk && file.Some? && Decode(file.value) == Some(v))
    ensures openOk && file.Some? && file.value.Encoded? && !Falsy(file.value.doc) ==> v == file.value.doc
    ensures file.None? || !openOk || file == Some(Unparseable) ==> v == EmptyDocument
  {
    if file.None? then EmptyDocument
    else if !openOk then EmptyDocument
    else
      var decoded := Decode(file.value).GetOr(Null);
      if Falsy(decoded) then EmptyDocument else decoded
  }

  datatype StoreError = TmpCreateFailed | ReplaceFailed

  datatype WriteResult = Written | WriteFailed(error: StoreError)

  /** The two files the store uses: the data file and its `.tmp` sibling. */
  class DataStore {
    var final: Option<Stored>
    var tmp: Option<Stored>

    constructor (current: Option<Stored>)
      ensures final == current && tmp == None
    {
      final := current;
      tmp := None;
    }

    /** `fopen($tmpFile, 'w')`: creates or empties the temporary file. */
    method OpenTmp(openOk: bool) returns (ok: bool)
      modifies this`tmp
      ensures ok == openOk
      ensures tmp == if ok then Some(Unparseable) else old(tmp)
    {
      ok := openOk;
      if ok {
        tmp := Some(Unparseable);
      }
    }

    /** `fwrite` of the encoded document into the open temporary file. */
    method FillTmp(data: Value)
      requires tmp.Some?
      modifies this`tmp
      ensures tmp == Some(Encoded(data))
    {
      tmp := Some(Encoded(data));
    }

    /** `rename($tmpFile, $dataFile)`, and `unlink($tmpFile)` when it fails. */
    method ReplaceFinal(renameOk: bool) returns (ok: bool)
      requires tmp.Some?
      modifies this
      ensures ok == renameOk && tmp == None
      ensures final == if ok then old(tmp) else old(final)
    {
      ok := renameOk;
      if ok {
        final := tmp;
      }
      tmp := None;
    }

    /**
     * writeDataFile. The data file changes only in the last step, and then to
     * the whole new document; every earlier step touches only the temporary
     * file, so a reader sees the old document or the new one.
     */
    method WriteDataFile(data: Value, openOk: bool, renameOk: bool) returns (r: WriteResult)
      modifies this
      ensures r == Written <==> openOk && renameOk
      ensures r == WriteFailed(TmpCreateFailed) <==> !openOk
      ensures r == WriteFailed(ReplaceFailed) <==> openOk && !renameOk
      ensures r == Written ==> final == Some(Encoded(data)) && tmp == None
      ensures r == WriteFailed(ReplaceFailed) ==> final == old(final) && tmp == None
      ensures r == WriteFailed(TmpCreateFailed) ==> final == old(final) && tmp == old(tmp)
      ensures r != Written ==> final == old(final)
      ensures r == Written && !Falsy(data) ==> ReadDataFile(final, true) == data
    {
      var created := OpenTmp(openOk);
      if !created {
        return WriteFailed(TmpCreateFailed);
      }
      FillTmp(data);
      var replaced := ReplaceFinal(renameOk);
      if !replaced {
        return WriteFailed(ReplaceFailed);
      }
      r := Written;
    }

    /**
     * handleSaveData: authenticated requests with a payload replace the whole
     * document; anything else leaves both files untouched.
     */
    method SaveData(pinFile: Option<string>, pinHash: Option<Value>, payload: Option<Value>,
                    openOk: bool, renameOk: bool) returns (r: SaveResponse)
      modifies this
      ensures r == SaveRejected <==> !(Authenticated(pinFile, pinHash) && IsSet(payload))
      ensures r == SaveRejected ==> final == old(final) && tmp == old(tmp)
      ensures r == Saved <==> Authenticated(pinFile, pinHash) && IsSet(payload) && openOk && renameOk
      ensures r == Saved ==> final == Some(Encoded(payload.value)) && tmp == None
      ensures r.SaveFailed? ==> final == old(final)
      ensures r == SaveFailed(TmpCreateFailed) <==> Authenticated(pinFile, pinHash) && IsSet(payload) && !openOk
      ensures r == SaveFailed(TmpCreateFailed) ==> tmp == old(tmp)
      ensures r == SaveFailed(ReplaceFailed) <==> Authenticated(pinFile, pinHash) && IsSet(payload) && openOk && !renameOk
      ensures r == SaveFailed(ReplaceFailed) ==> tmp == None
    {
      if Authenticated(pinFile, pinHash) && IsSet(payload) {
        var w := WriteDataFile(payload.value, openOk, renameOk);
        r := if w == Written then Saved else SaveFailed(w.error);
      } else {
        r := SaveRejected;
      }
    }
  }

  datatype SaveResponse = Saved | SaveFailed(error: StoreError) | SaveRejected

  datatype GetDataResponse = Document(doc: Value) | AuthFailed

  /** handleGetData: the document is read and returned only to authenticated requests. */
  function GetData(pinFile: Option<string>, pinHash: Option<Value>, file: Option<Stored>, openOk: bool)
    : (r: GetDataResponse)
    ensures r.Document? <==> Authenticated(pinFile, pinHash)
    ensures r.Document? ==> r.doc == ReadDataFile(file, openOk)
    ensures r.Document? ==> !Falsy(r.doc)
    ensures r.Document? && (file.None? || !openOk || file == Some(Unparseable)) ==> r.doc == EmptyDocument
    ensures r.Document? && openOk && file.Some? && file.value.Encoded? && !Falsy(file.value.doc)
            ==> r.doc == file.value.doc
  {
    if Authenticated(pinFile, pinHash) then Document(ReadDataFile(file, openOk)) else AuthFailed
  }

  /**
   * Saving a payload PHP treats as falsy (`false`, `0`, `""`, `[]`, ...) succeeds,
   * but the next read gives the empty document instead of the payload.
   */
  lemma FalsyPayloadReadsAsEmpty(d: Value)
    requires Falsy(d)
    ensures ReadDataFile(Some(Encoded(d)), true) == EmptyDocument
  {
  }
}
