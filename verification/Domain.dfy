/** The rows and enumerations the pipeline works on. */
module Domain {

  datatype Option<+T> = None | Some(value: T)

  datatype JobStep =
    | Validate | Probe | Transcode | SampleFrames | DetectPlayers | Track
    | JerseyOcr | ScoreEvents | CutClips | Thumbnails | Persist

  datatype JobStatus = Pending | Running | Succeeded | Failed | Skipped

  datatype VideoStatus = Pending | Uploading | Uploaded | Processing | Ready | Failed

  datatype MatchStatus = Scheduled | CheckIn | Recording | Uploading | Processing | Ready | Failed

  const PIPELINE_ORDER: seq<JobStep> :=
    [Validate, Probe, Transcode, SampleFrames, DetectPlayers, Track,
     JerseyOcr, ScoreEvents, CutClips, Thumbnails, Persist]

  const REQUIRED_STEPS: set<JobStep> :=
    {Validate, Probe, Transcode, ScoreEvents, CutClips, Persist}

  /** One chunk of a recording; its 0-based index is the key it is stored under. */
  datatype Segment = Segment(url: string, size: int, duration: Option<real>)

  datatype Highlight = Highlight(id: nat, start: real, end: real, score: real, clip: Option<string>)

  /** `extra` stands for the columns no rule here reads (probe output, replay and proxy urls, tracks, ...). */
  datatype Video = Video(
    id: string,
    status: VideoStatus,
    failureReason: Option<string>,
    originalUrl: Option<string>,
    sizeBytes: Option<int>,
    segments: map<nat, Segment>,
    duration: Option<real>,
    highlights: seq<Highlight>,
    extra: map<string, string>)

  datatype Match = Match(status: MatchStatus, failureReason: Option<string>)

  datatype Settings = Settings(originalsBucket: string, derivedBucket: string)

  /**
   * What a step's fingerprint hashes. The hash is taken to be injective, so the
   * fingerprint is its own preimage.
   */
  datatype Fingerprint = Fingerprint(
    step: JobStep,
    videoId: string,
    manifest: Option<seq<(nat, int)>>,
    master: Option<string>,
    originalsBucket: string,
    derivedBucket: string)

  datatype Job = Job(
    status: JobStatus,
    attempts: nat,
    fingerprint: Option<Fingerprint>,
    result: string,
    lastError: Option<string>,
    startedAt: Option<int>,
    finishedAt: Option<int>)

  /** The rows belonging to one video: the video, its match and at most one job per step. */
  datatype Db = Db(video: Video, game: Option<Match>, jobs: map<JobStep, Job>)
}
