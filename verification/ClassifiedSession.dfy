/** Classifier and protocol together: what a client of the board learns about its own images. */
module ClassifiedSession {
  import opened FixedWidth
  import opened Golden
  import opened Accelerator
  import opened PsPipeline
  import opened Postprocess
  import opened ClassifyOne
  import opened ClassMeaning
  import opened RoiProtocol
  import opened TcpParties
  import opened TcpSession
  import opened Wrappers

  /** A result with status OK names a class of the model: the first maximum of the board's logits for
      the request's own image, which is the golden model's class when no golden value of that image
      overflows. */
  ghost predicate RightFor(q: Request, r: RoiResult, n: Network3, divisor: int, classes: nat)
    requires 0 < divisor < 0x1_0000_0000
  {
    WellFormed(q) && (r.status == STATUS_OK ==>
      && r.classId < classes
      && BoardClass(DeviceMap(PaddedInput(q.image), n), n, divisor, classes, r.classId)
      && (divisor == 1 && ImageFits(q.image, n, classes) ==>
            GoldenClass(q.image, n, classes, r.classId) && IsGoldenClass(q.image, n, classes, r.classId)))
  }

  /** On such an image the board's answer is the class that run_golden reports. */
  lemma BoardIsGolden(q: Request, r: RoiResult, n: Network3, classes: nat, golden: nat)
    requires RightFor(q, r, n, 1, classes) && r.status == STATUS_OK && ImageFits(q.image, n, classes)
    requires GoldenClass(q.image, n, classes, golden)
    ensures r.classId == golden
  {
    hide GoldenLogits, GoldenMap, BoardClass;
    FirstMaxUnique(classes, GoldenLogits(GoldenMap(q.image, n), n), r.classId, golden);
  }

  /** The server's work between receiving a request and sending its result. */
  method AnswerRequest(q: Request, mapped: bool, deviceOk: bool, logitsAllocated: bool, ppm: Option<nat>,
                       top: ClassifierTop, m: Model, ifmap: array<Int8>, plOutput: array<Int8>, ghost n: Network3)
    returns (r: RoiResult)
    requires WellFormed(q) && top.Valid() && m.Valid() && m.Means(n) && top.buffers !! m.Buffers()
    requires ifmap !in top.buffers && plOutput !in top.buffers && ifmap !in m.Buffers() && plOutput !in m.Buffers()
    requires ifmap != plOutput && (ppm.Some? ==> ppm.value <= CONFIDENCE_PPM_MAX)
    requires ifmap.Length == PL_SIDE * PL_SIDE * 3 && plOutput.Length == GAP_SIDE * GAP_SIDE * CHANNELS
    modifies top.buffers, ifmap, plOutput
    ensures AcceptableResult(r) && RightFor(q, r, n, m.gapDivisor, m.classCount)
    ensures mapped && deviceOk && logitsAllocated && m.gapDivisor == 1 && ImageFits(q.image, n, m.classCount) ==>
      r.status == STATUS_OK
  {
    hide BoardClass, GoldenClass, IsGoldenClass, ImageFits, DeviceMap, PaddedInput, Model.Means, ClassifierTop.Valid,
      LogitsFit, ParametersFit;
    var image := new Byte[IMAGE_SIZE](i requires 0 <= i < IMAGE_SIZE => q.image[i]);
    assert image[..] == q.image;
    r := Classify(image, mapped, deviceOk, logitsAllocated, ppm, top, m, ifmap, plOutput, n);
    if r.status == STATUS_OK && m.gapDivisor == 1 && ImageFits(q.image, n, m.classCount) {
      GoldenClassIs(q.image, n, m.classCount, r.classId);
    }
  }

  /** In every run of a session whose server answers that way, whatever the fragmentation and whichever
      side fails, each result the client got belongs to its own request's image, and the requests
      answered are the first ones called, in order. */
  lemma SessionClassifies(run: seq<System>, events: seq<Event>, k: nat, n: Network3, divisor: int, classes: nat)
    requires 0 < divisor < 0x1_0000_0000 && IsRun(run, events) && k < |run|
    requires ComputesOnly(run, events, (q, r) => RightFor(q, r, n, divisor, classes))
    ensures forall i :: 0 <= i < |run[k].received| ==>
      RightFor(run[k].received[i].q, run[k].received[i].r, n, divisor, classes)
    ensures Requests(run[k].received) <= Calls(events[..k])
  {
    hide IsRun, RightFor;
    ReceivedAreRight(run, events, k, (q, r) => RightFor(q, r, n, divisor, classes));
    EachCallAnsweredOnce(run, events, k);
  }
}
