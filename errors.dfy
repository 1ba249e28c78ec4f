/** The outcomes other than success that the analysis reports. Non-fatal
    errors are collected per genome, alignment or contig name and reported
    once at the end of a run; fatal errors abort the run. */
module Errors {

  /** The `NonFatalError` constants of FinalizeRunOperation.java:319-386. */
  datatype NonFatalError =
    | GenomesWithoutAnnotations
    | ContigsWithoutACdsAnnotation
    | GenomesWithoutACdsAnnotation
    | ContigsWithAnUnexpectedNumberOfCdsAnnotationIntervals
    | GenomesWithoutAVp1Annotation
    | ContigsWithoutAVp1Annotation
    | GenomesWithAnUnexpectedNumberOfVp1AnnotationIntervals
    | ContigsWithAnUnexpectedNumberOfVp1AnnotationIntervals
    | AlignmentsWithoutReferenceSequences
    | AlignmentsWithoutAVp1Annotation
    | AlignmentsWithAnUnexpectedNumberOfVp1AnnotationIntervals
    | AlignmentsWithoutACdsAnnotation
    | AlignmentsWithAnUnexpectedNumberOfCdsAnnotationIntervals
    | GenomesWithAnUnexpectedNumberOfCdsAnnotationIntervals
    | GenomesWithAnUnexpectedNumberOfMaturePeptideAnnotationIntervals
    | GenomesWithNoCorrespondingFilesWithinTheFinalAssembliesFolder

  /** One name recorded against one error; the source appends these to the
      error's shared list, the model returns them to the caller. */
  datatype ErrorEntry = ErrorEntry(error: NonFatalError, name: string)

  /** Exceptions that end the whole operation. */
  datatype Fatal =
    | MissingNopv2Reference(alignmentName: string)  // the nOPV2 reference row is absent
    | IndexOutOfBounds                              // a `charAt`/`substring` index outside the string
}
