/** Which ref a pull synchronises against: an explicit ref, else the
    detector's answer when detection is enabled, else the default. */
module Refs {

  /** The fallback branch name. */
  const DefaultRef := "master"

  /** The driver's configuration, as decoded from `{"detect-ref": …, "ref": …}`;
      an empty `ref` means unset. */
  datatype Config = Config(detectRef: bool, ref: string)

  /** The configuration of a driver built from no serialised blob. */
  const Defaults := Config(false, "")

  /** `targetRef`: the three-tier precedence. `detect` is the ref detector,
      a function from working directory to a branch name, "" for none. */
  function TargetRef(cfg: Config, detect: string -> string, dir: string): (r: string)
    ensures r != []
    ensures cfg.ref != [] ==> r == cfg.ref
    ensures cfg.ref == [] && cfg.detectRef && detect(dir) != [] ==> r == detect(dir)
    ensures cfg.ref == [] && (!cfg.detectRef || detect(dir) == []) ==> r == DefaultRef
  {
    var chosen := if cfg.ref != [] then cfg.ref else if cfg.detectRef then detect(dir) else [];
    if chosen == [] then DefaultRef else chosen
  }

  /** The detector is consulted only when no explicit ref is set and
      detection is on: otherwise any two detectors give the same ref. */
  lemma DetectorConsultedOnlyWhenEnabled(cfg: Config, d1: string -> string, d2: string -> string, dir: string)
    requires cfg.ref != [] || !cfg.detectRef
    ensures TargetRef(cfg, d1, dir) == TargetRef(cfg, d2, dir)
  {
  }

  /** Only the detector's answer for this directory matters. */
  lemma TargetRefDependsOnDetection(cfg: Config, d1: string -> string, d2: string -> string, dir: string)
    requires d1(dir) == d2(dir)
    ensures TargetRef(cfg, d1, dir) == TargetRef(cfg, d2, dir)
  {
  }

  /** The resolved ref is always one of the three candidates. */
  lemma TargetRefIsACandidate(cfg: Config, detect: string -> string, dir: string)
    ensures var r := TargetRef(cfg, detect, dir);
      r == cfg.ref || r == detect(dir) || r == DefaultRef
  {
  }
}
