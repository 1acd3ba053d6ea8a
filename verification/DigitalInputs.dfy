/** The unique IDs of camera digital inputs: building them and reading them back. */
module DigitalInputs {
  import opened Text

  const PREFIX := "unifi_insights_camera_"
  const MARKER := "_digital_input_"
  const SUFFIX := "_event"

  /** `text[i..]` starts with `pattern`. */
  predicate OccursAt(text: string, pattern: string, i: nat) {
    i + |pattern| <= |text| && text[i..i + |pattern|] == pattern
  }

  /** Where `pattern` first occurs in `text`, searching from `from`. */
  function Find(text: string, pattern: string, from: nat := 0): (at: Option<nat>)
    ensures at.Some? ==> from <= at.value && OccursAt(text, pattern, at.value)
    ensures at.Some? ==> forall i :: from <= i < at.value ==> !OccursAt(text, pattern, i)
    ensures at.None? ==> forall i :: from <= i ==> !OccursAt(text, pattern, i)
    decreases |text| + 1 - from
  {
    if |text| < from + |pattern| then None
    else if OccursAt(text, pattern, from) then Some(from)
    else Find(text, pattern, from + 1)
  }

  datatype Input = Input(cameraId: string, key: string)

  function Build(input: Input): string {
    PREFIX + input.cameraId + MARKER + input.key + SUFFIX
  }

  /** `text[from:-drop]` */
  function Middle(text: string, from: nat, drop: nat): string {
    if from + drop <= |text| then text[from..|text| - drop] else ""
  }

  /** `_parse_digital_input_unique_id`: only the first marker splits. */
  function Parse(uniqueId: Option<string>): Option<Input> {
    if uniqueId.None? || !StartsWith(uniqueId.value, PREFIX) || !EndsWith(uniqueId.value, SUFFIX) then None
    else
      var body := Middle(uniqueId.value, |PREFIX|, |SUFFIX|);
      var at := Find(body, MARKER);
      if at.None? then None
      else
        var camera, key := body[..at.value], body[at.value + |MARKER|..];
        if camera == "" || key == "" then None else Some(Input(camera, key))
  }

  /** Every accepted ID is rebuilt exactly from what was read out of it. */
  lemma BuildOfParse(uniqueId: string)
    ensures var input := Parse(Some(uniqueId)); input.Some? ==> Build(input.value) == uniqueId
  {
    var input := Parse(Some(uniqueId));
    if input.Some? {
      var body := Middle(uniqueId, |PREFIX|, |SUFFIX|);
      assert body == input.value.cameraId + MARKER + input.value.key;
      assert uniqueId == PREFIX + body + SUFFIX;
    }
  }

  /** The camera ID cannot be mistaken for the start of a marker. */
  predicate Readable(input: Input) {
    && input.cameraId != "" && input.key != ""
    && Find(input.cameraId, MARKER).None?
    && !EndsWith(input.cameraId, MARKER[..|MARKER| - 1])
  }

  /** An ID is read back as built exactly when its parts are readable. */
  lemma ParseOfBuild(input: Input)
    ensures Parse(Some(Build(input))) == Some(input) <==> Readable(input)
  {
    var id, body := Build(input), input.cameraId + MARKER + input.key;
    BodyOfBuild(input);
    FirstMarker(input.cameraId, input.key);
    assert body[|input.cameraId| + |MARKER|..] == input.key && body[..|input.cameraId|] == input.cameraId;
  }

  lemma BodyOfBuild(input: Input)
    ensures var id := Build(input);
      StartsWith(id, PREFIX) && EndsWith(id, SUFFIX)
      && Middle(id, |PREFIX|, |SUFFIX|) == input.cameraId + MARKER + input.key
  {
    var body := input.cameraId + MARKER + input.key;
    assert Build(input) == PREFIX + body + SUFFIX;
  }

  /** In `camera + MARKER + key` the first marker is the builder's, or starts inside the camera ID. */
  lemma FirstMarker(camera: string, key: string)
    ensures var at := Find(camera + MARKER + key, MARKER);
      && at.Some? && at.value <= |camera|
      && (at.value == |camera| <==> Find(camera, MARKER).None? && !EndsWith(camera, MARKER[..|MARKER| - 1]))
  {
    var body := camera + MARKER + key;
    assert OccursAt(body, MARKER, |camera|);
    forall i: nat | i < |camera|
      ensures OccursAt(body, MARKER, i)
              <==> OccursAt(camera, MARKER, i) || (i + |MARKER| - 1 == |camera| && EndsWith(camera, MARKER[..|MARKER| - 1]))
    {
      EarlierMarker(camera, key, i);
    }
    if EndsWith(camera, MARKER[..|MARKER| - 1]) {
      assert OccursAt(body, MARKER, |camera| - (|MARKER| - 1));
    }
  }

  /** The marker's only border is its underscore, so an early match overlaps the real one by one character. */
  lemma EarlierMarker(camera: string, key: string, i: nat)
    requires i < |camera|
    ensures OccursAt(camera + MARKER + key, MARKER, i)
            <==> OccursAt(camera, MARKER, i) || (i + |MARKER| - 1 == |camera| && EndsWith(camera, MARKER[..|MARKER| - 1]))
  {
    var body := camera + MARKER + key;
    if i + |MARKER| <= |camera| {
      assert body[i..i + |MARKER|] == camera[i..i + |MARKER|];
    } else {
      var overlap := i + |MARKER| - |camera|;
      assert body[i..i + |MARKER|] == camera[i..] + MARKER[..overlap];
      if overlap == 1 {
        assert MARKER == MARKER[..|MARKER| - 1] + MARKER[..1];
      } else {
        NoLongerBorder(overlap);
        assert (camera[i..] + MARKER[..overlap])[|MARKER| - overlap..] == MARKER[..overlap];
      }
    }
  }

  lemma NoLongerBorder(n: nat)
    requires 1 < n < |MARKER|
    ensures MARKER[|MARKER| - n..] != MARKER[..n]
  {
    var tail := MARKER[|MARKER| - n..];
    assert tail[0] == MARKER[|MARKER| - n];
    if n == 7 {
      assert tail[1] == 'i' && MARKER[..n][1] == 'd';
    } else {
      assert tail[0] != '_' == MARKER[..n][0];
    }
  }

  /** Prefix and suffix that overlap leave nothing to read. */
  lemma OverlapIsRejected(uniqueId: string)
    requires |uniqueId| < |PREFIX| + |SUFFIX|
    ensures Parse(Some(uniqueId)).None?
  {
    assert Middle(uniqueId, |PREFIX|, |SUFFIX|) == "" ;
  }
}
