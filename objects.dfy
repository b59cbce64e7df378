/** Stored objects and the remote read path: what torch.load and json.loads
    make of an object, s3_get_object, and what get_remote returns. */
module Objects {
  import opened Common
  import opened Naming

  const TooEarly: string := "TOO_EARLY"
  const TooLate: string := "TOO_LATE"

  /** What `json.loads` makes of an object's text, when it decodes at all. */
  datatype JsonValue =
    | JsonObject(status: Option<string>)  // a dict; `status` is its "__status" string, if any
    | JsonNull                            // the document `null`
    | JsonOther                           // a list, a string, a number or a boolean

  /** A stored object, seen through the two decoders the store applies to it. */
  datatype Blob =
    | Saved(state: StateDict)   // written by torch.save, read back by torch.load
    | Json(json: JsonValue)     // a JSON document (a status marker, say)
    | Unreadable                // bytes neither decoder accepts

  /** torch.load */
  function Load(b: Blob): Option<StateDict> {
    if b.Saved? then Some(b.state) else None
  }

  predicate IsStatusMarker(s: string) { s == TooEarly || s == TooLate }

  /** The object's "__status" when it is a JSON dict carrying one of the two
      sentinels. */
  function MarkerOf(b: Blob): Option<string> {
    if b.Json? && b.json.JsonObject? && b.json.status.Some? && IsStatusMarker(b.json.status.value)
    then b.json.status else None
  }

  datatype FetchResult =
    | FetchFailed              // None: no bucket, no such object, or an error
    | Marker(status: string)   // "TOO_EARLY" / "TOO_LATE"
    | WrittenToFile            // True: the object was written to the given path
    | RawData(blob: Blob)      // the object itself, when no path was given

  /** s3_get_object. `objects` is the bucket's contents, or None when no
      bucket is given; `toFile` says whether a file path was given. The time
      bounds are normalised by the source and then never used. */
  function S3GetObject(objects: Option<map<string, Blob>>, key: string, toFile: bool,
                       timeMin: Option<real>, timeMax: Option<real>): (r: FetchResult)
    ensures (objects.None? || key !in objects.value) ==> r == FetchFailed
    ensures r.Marker? <==> objects.Some? && key in objects.value && MarkerOf(objects.value[key]).Some?
    ensures r.Marker? ==> IsStatusMarker(r.status) && Some(r.status) == MarkerOf(objects.value[key])
    ensures r.WrittenToFile? ==> toFile
    ensures r.RawData? ==> !toFile && r.blob == objects.value[key]
    ensures objects.Some? && key in objects.value && MarkerOf(objects.value[key]).None? ==>
              (objects.value[key] == Json(JsonOther) <==> r == FetchFailed)
  {
    if objects.None? || key !in objects.value then FetchFailed
    else
      var b := objects.value[key];
      if b.Json? && b.json.JsonOther? then FetchFailed   // `.get` on a non-dict raises
      else if MarkerOf(b).Some? then Marker(MarkerOf(b).value)
      else if toFile then WrittenToFile
      else RawData(b)
  }

  /** Every object that is not a JSON non-dict comes back: raw, or written. */
  lemma S3GetObjectReturnsObject(objects: map<string, Blob>, key: string,
                                 timeMin: Option<real>, timeMax: Option<real>)
    requires key in objects && MarkerOf(objects[key]).None? && objects[key] != Json(JsonOther)
    ensures S3GetObject(Some(objects), key, false, timeMin, timeMax) == RawData(objects[key])
    ensures S3GetObject(Some(objects), key, true, timeMin, timeMax) == WrittenToFile
  {
  }

  datatype GetResult = NoData | Status(status: string) | Data(state: StateDict)

  /** What get_remote returns for a bucket's contents: the sentinel, the
      loaded state dict, or None. */
  function RemoteGetResult(objects: map<string, Blob>, name: string): (r: GetResult)
    ensures r.Status? <==> name in objects && MarkerOf(objects[name]).Some?
    ensures r.Status? ==> IsStatusMarker(r.status)
    ensures r.Data? <==> name in objects && objects[name].Saved?
    ensures r.Data? ==> r.state == objects[name].state
  {
    match S3GetObject(Some(objects), name, true, None, None)
    case Marker(s) => Status(s)
    case WrittenToFile =>
      (match Load(objects[name]) case Some(d) => Data(d) case None => NoData)
    case _ => NoData
  }

  /** A fetch of the name a store wrote returns what was stored. */
  lemma RemoteGetAfterStore(objects: map<string, Blob>, state: StateDict,
                            key: string, window: nat, uid: string, version: string)
    ensures var name := ArtifactName(key, window, uid, version);
            RemoteGetResult(objects[name := Saved(state)], name) == Data(state)
  {
  }
}
