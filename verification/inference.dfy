/** The fixed dimensions of the ResNet-50 sample (resnet50_inference.cpp
    lines 21-25) and the type of a class score. */
module Inference {

  /** One class score. The reporter only ever compares scores, never does
      arithmetic on them, so any total order would serve; reals are used. */
  type Score = real

  const NumLabels: nat := 1000
  const ImageChannels: nat := 3
  const ImageHeight: nat := 224
  const ImageWidth: nat := 224
  const NumRuns: nat := 5

  /** `printTopLabels` defaults its `topN` argument to NUM_RUNS. */
  const DefaultTopN: int := NumRuns as int

  /** `main` asks for the ten best categories. */
  const MainTopN: int := 10
}
