/** `apply_template_to_file`: normalise the suggested values, try to create
    the file's metadata instance with them, and when the remote system
    answers that one already exists (409), replace every field of it with
    one patch request instead. The remote calls are not performed: the
    method returns the calls it issues, and the answers the remote system
    gives are its parameters. */
module MetadataUpsert {
  import opened Wrappers
  import opened OrderedDict
  import opened IsoDateTime
  import opened Suggestions

  /** One operation of the update request body. */
  datatype PatchOp = PatchOp(op: string, path: string, value: string)

  /** A call issued to the remote metadata store. */
  datatype RemoteCall =
    | CreateFileMetadata(fileId: string, templateKey: string, body: Dict<string>)
    | UpdateFileMetadata(fileId: string, templateKey: string, ops: seq<PatchOp>)

  const ReplaceOp: string := "replace"

  /** `ops` holds one "replace" per field of `values`, in the same order,
      with path "/" followed by the key and the field's value. */
  predicate ReplacesEveryField(ops: seq<PatchOp>, values: Dict<string>) {
    |ops| == |values| &&
    forall i | 0 <= i < |ops| :: ops[i] == PatchOp(ReplaceOp, "/" + values[i].0, values[i].1)
  }

  /** The update names each field exactly once: an op replacing `k` with `v`
      is there exactly when `values` maps `k` to `v`, and no two ops share
      a path. */
  lemma ReplaceOpsCoverFields(ops: seq<PatchOp>, values: Dict<string>, k: string, v: string)
    requires ReplacesEveryField(ops, values) && KeysDistinct(values)
    ensures (exists i | 0 <= i < |ops| :: ops[i] == PatchOp(ReplaceOp, "/" + k, v)) <==> Lookup(values, k) == Some(v)
    ensures forall i, j | 0 <= i < j < |ops| :: ops[i].path != ops[j].path
  {
    if i :| 0 <= i < |ops| && ops[i] == PatchOp(ReplaceOp, "/" + k, v) {
      assert ("/" + values[i].0)[1..] == values[i].0;
      assert ("/" + k)[1..] == k;
      LookupAt(values, i);
    }
    if Lookup(values, k) == Some(v) {
      var i :| 0 <= i < |values| && values[i] == (k, v);
      assert ops[i] == PatchOp(ReplaceOp, "/" + k, v);
    }
    forall i, j | 0 <= i < j < |ops| ensures ops[i].path != ops[j].path {
      assert ("/" + values[i].0)[1..] == values[i].0;
      assert ("/" + values[j].0)[1..] == values[j].0;
    }
  }

  /** The `docOwner` block: when the key is present, prefix "[ " unless the
      value starts with '[' and then suffix " ]" unless it ends with ']'. */
  method BracketOwnerEntry(values: Dict<string>) returns (r: Dict<string>)
    requires forall i | 0 <= i < |values| :: values[i].1 != ""
    ensures r == Rewrite(values, OwnerKey, BracketOwner)
  {
    r := values;
    if Contains(r, OwnerKey) {
      var owner := Lookup(r, OwnerKey).value;
      if owner[0] != '[' {
        owner := "[ " + owner;
      }
      if owner[|owner| - 1] != ']' {
        owner := owner + " ]";
      }
      r := Put(r, OwnerKey, owner);
    }
  }

  /** The loop that builds the update request body: one "replace" per
      entry, in the dict's order. */
  method ReplaceOps(values: Dict<string>) returns (ops: seq<PatchOp>)
    ensures ReplacesEveryField(ops, values)
  {
    ops := [];
    var i := 0;
    while i < |values|
      invariant 0 <= i <= |values|
      invariant |ops| == i
      invariant forall j | 0 <= j < i :: ops[j] == PatchOp(ReplaceOp, "/" + values[j].0, values[j].1)
    {
      ops := ops + [PatchOp(ReplaceOp, "/" + values[i].0, values[i].1)];
      i := i + 1;
    }
  }

  /** The try/except around `datetime.fromisoformat` for one date field:
      when `key` is present, replace its value by the normalised date or,
      when it does not parse, by the sentinel. This is `NormaliseDate`
      applied to the entry in place. */
  method NormaliseDateEntry(values: Dict<string>, key: string, fromIsoFormat: Parser) returns (r: Dict<string>)
    ensures r == Rewrite(values, key, text => NormaliseDate(fromIsoFormat, text))
  {
    r := values;
    if Contains(r, key) {
      var dateString := Lookup(r, key).value;
      match fromIsoFormat(dateString)
      case Some(parsed) =>
        r := Put(r, key, RemoveAll(IsoFormat(Midnight(parsed)), UtcSuffix) + "Z");
      case None =>
        r := Put(r, key, SentinelDate);
    }
  }

  /** `apply_template_to_file(file_id, template_key, data, existing_data)`.
      `existing_data` is only logged by the source and has no effect. */
  method ApplyTemplateToFile(
    fileId: string, templateKey: string, data: Dict<PyValue>, existingData: Dict<PyValue>,
    fromIsoFormat: Parser, createResponse: Response<()>, updateResponse: Response<()>)
    returns (calls: seq<RemoteCall>, outcome: Outcome<()>)
    ensures |calls| >= 1 && calls[0] == CreateFileMetadata(fileId, templateKey, Normalise(fromIsoFormat, data))
    ensures createResponse.Ok? ==> |calls| == 1 && outcome == Returned(())
    ensures createResponse == Err(Conflict) ==>
              |calls| == 2 && outcome == Returned(()) &&
              calls[1].UpdateFileMetadata? && calls[1].fileId == fileId && calls[1].templateKey == templateKey &&
              ReplacesEveryField(calls[1].ops, Normalise(fromIsoFormat, data))
    ensures createResponse.Err? && createResponse.status != Conflict ==>
              |calls| == 1 && outcome == Raised(BoxAPIError(createResponse.status))
  {
    // data = {k: v for k, v in data.items() if v}
    var values := DropFalsy(data);

    values := BracketOwnerEntry(values);
    values := NormaliseDateEntry(values, EffectiveDateKey, fromIsoFormat);
    values := NormaliseDateEntry(values, ReviewDateKey, fromIsoFormat);

    calls := [CreateFileMetadata(fileId, templateKey, values)];
    match createResponse
    case Ok(_) =>
      outcome := Returned(());
    case Err(status) =>
      if status == Conflict {
        var ops := ReplaceOps(values);
        calls := calls + [UpdateFileMetadata(fileId, templateKey, ops)];
        match updateResponse
        case Ok(_) =>
          outcome := Returned(());
        case Err(_) =>
          // the failed update is logged and swallowed
          outcome := Returned(());
      } else {
        outcome := Raised(BoxAPIError(status));
      }
  }
}
