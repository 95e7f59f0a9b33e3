/** The record shapes the viewer, the sidebar and the comment thread work on. */
module StudyTypes {

  /** A study as the viewer and the sidebar declare it (src/components/DicomViewer.tsx:16-24). */
  datatype Study = Study(
    id: string,
    patientName: string,
    patientId: string,
    description: string,
    modality: string,
    studyDate: string,
    images: seq<string>)

  /** A reply under a doctor's comment (src/types/study.ts:11). */
  datatype CommentReply = CommentReply(text: string, date: string)

  /** One doctor's comment with its replies (src/types/study.ts:9-13). */
  datatype DoctorComment = DoctorComment(text: string, replies: seq<CommentReply>, date: string)
}
