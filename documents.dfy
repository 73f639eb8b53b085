/** The two value objects the pipeline passes around: the document to
    summarise and a candidate summary report. */
module Documents {

  /** A source document; only its text matters to the core. */
  datatype Document = Document(content: string)

  /** A summary report: a title and a body whose paragraphs are meant to be
      separated by "\n\n". */
  datatype Report = Report(title: string, content: string)
}
