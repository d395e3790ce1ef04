/** Detections, sidecars and the paths they belong to. */
module Sidecars {
  import opened Text
  import opened StorageNames

  // Confidences are real numbers; rounding is not modelled.
  datatype Detection = Detection(category: string, tag: string, confidence: real)

  const PENDING := "pending"
  const SUCCESS := "success"
  const FAILED := "failed"
  const SKIPPED := "skipped"

  datatype Sidecar = Sidecar(
    state: string,
    attempts: int,
    lastError: string,
    detections: seq<Detection>,
    hasPerson: bool,
    hasAnimal: bool,
    hasVehicle: bool,
    thumbnailPath: string,
    rawResponse: string,
    mqttPublished: bool,
    mqttLastError: string)

  const SIDECAR_SUFFIX := ".detections.json"

  function SidecarPath(video: string): string {
    video + SIDECAR_SUFFIX
  }

  predicate IsVideoPath(path: string) {
    Lower(Ext(path)) in {".mp4", ".m4v", ".mov", ".avi", ".mkv", ".webm", ".mpg", ".mpeg", ".3gp", ".wmv", ".ts"}
  }

  predicate IsDetectionSidecarPath(path: string) {
    HasSuffix(Lower(path), SIDECAR_SUFFIX)
  }

  /** The extension is the end of the name from its last dot. */
  lemma EndingIs(path: string, ext: string)
    requires ext != "" && ext[0] == '.' && forall i | 1 <= i < |ext| :: ext[i] != '.' && ext[i] != '/'
    ensures HasSuffix(Lower(path), ext) <==> Lower(Ext(path)) == ext
  {
    if HasSuffix(Lower(path), ext) { DotEnding(path, ext); }
    ExtEnds(path);
    var n := |path| - |Ext(path)|;
    assert Lower(path)[n..] == Lower(path[n..]);
  }

  lemma DotEnding(path: string, ext: string)
    requires ext != "" && ext[0] == '.' && forall i | 1 <= i < |ext| :: ext[i] != '.' && ext[i] != '/'
    requires HasSuffix(Lower(path), ext)
    ensures Lower(Ext(path)) == ext
  {
    var n := |path| - |ext|;
    var stem, w := path[..n], path[n + 1..];
    forall i | 0 <= i < |ext| ensures LowerChar(path[n + i]) == ext[i] { assert Lower(path)[n..][i] == ext[i]; }
    assert path[n] == '.' && path == stem + "." + w;
    forall i | 0 <= i < |w| ensures w[i] != '.' && w[i] != '/' { assert LowerChar(path[n + (i + 1)]) == ext[i + 1]; }
    ExtIs(stem, w);
  }

  lemma {:induction false} ExtEnds(path: string)
    ensures HasSuffix(path, Ext(path))
  {
    if path != "" && path[|path| - 1] != '/' && path[|path| - 1] != '.' {
      var front := path[..|path| - 1];
      ExtEnds(front);
      assert path == front[..|front| - |Ext(front)|] + (Ext(front) + [path[|path| - 1]]);
    }
  }

  /** A video is known by the end of its name, in either case; so is a sidecar, whose
      name is that of its video and the suffix. */
  lemma KindsAre(path: string)
    ensures IsVideoPath(path) <==>
              var s := Lower(path);
              || HasSuffix(s, ".mp4") || HasSuffix(s, ".m4v") || HasSuffix(s, ".mov") || HasSuffix(s, ".avi")
              || HasSuffix(s, ".mkv") || HasSuffix(s, ".webm") || HasSuffix(s, ".mpg") || HasSuffix(s, ".mpeg")
              || HasSuffix(s, ".3gp") || HasSuffix(s, ".wmv") || HasSuffix(s, ".ts")
    ensures IsDetectionSidecarPath(path) <==> HasSuffix(Lower(path), ".detections.json")
    ensures SidecarPath(path) == path + ".detections.json"
  {
    hide HasSuffix, Ext, Lower;
    EndingIs(path, ".mp4");
    EndingIs(path, ".m4v");
    EndingIs(path, ".mov");
    EndingIs(path, ".avi");
    EndingIs(path, ".mkv");
    EndingIs(path, ".webm");
    EndingIs(path, ".mpg");
    EndingIs(path, ".mpeg");
    EndingIs(path, ".3gp");
    EndingIs(path, ".wmv");
    EndingIs(path, ".ts");
  }

  lemma SidecarPathIsSidecar(video: string)
    ensures IsDetectionSidecarPath(SidecarPath(video))
  {
    var path := SidecarPath(video);
    forall i | 0 <= i < |SIDECAR_SUFFIX| ensures LowerChar(SIDECAR_SUFFIX[i]) == SIDECAR_SUFFIX[i] {
      assert SIDECAR_SUFFIX[i] in SIDECAR_SUFFIX;
      assert forall c | c in SIDECAR_SUFFIX :: !('A' <= c <= 'Z');
    }
    assert Lower(path)[|path| - |SIDECAR_SUFFIX|..] == SIDECAR_SUFFIX;
  }

  /** The status label shown for a sidecar, None for a missing one. */
  function DetectionStatus(s: Option<Sidecar>): string {
    if s.None? then PENDING
    else if s.value.state == FAILED then FAILED
    else if s.value.state == SKIPPED then SKIPPED
    else if s.value.state == SUCCESS then
      if s.value.hasPerson || s.value.hasAnimal || s.value.hasVehicle then "detected" else "none"
    else PENDING
  }

  /** A success shows by its flags; failed and skipped show as they are; everything
      else, a missing sidecar included, as pending. */
  lemma StatusIs(s: Sidecar)
    ensures DetectionStatus(None) == "pending"
    ensures DetectionStatus(Some(s)) == "failed" <==> s.state == "failed"
    ensures DetectionStatus(Some(s)) == "skipped" <==> s.state == "skipped"
    ensures DetectionStatus(Some(s)) == "detected" <==>
            s.state == "success" && (s.hasPerson || s.hasAnimal || s.hasVehicle)
    ensures DetectionStatus(Some(s)) == "none" <==>
            s.state == "success" && !s.hasPerson && !s.hasAnimal && !s.hasVehicle
    ensures DetectionStatus(Some(s)) == "pending" <==> s.state !in {"failed", "skipped", "success"}
  {
    assert |"pending"| == |"success"| == |"skipped"| == 7 && "pending"[0] == 'p' && "success"[1] == 'u';
    assert "skipped"[1] == 'k' && |"failed"| == 6 && |"none"| == 4 && |"detected"| == 8;
  }
}
