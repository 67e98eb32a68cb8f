/** The fixed one-page PDF that every photo conversion currently answers
    with, as a `data:` URL (RFC 2397) carrying base64 content. The
    Next.js route and the Python service use the same literal. */
module MockPdf {
  const DataPrefix := "data:application/pdf;base64,"

  /** The base64 text of the mock PDF. */
  const MockPdfPayload := "JVBERi0xLjQKJcOkw7zDtsO8CjIgMCBvYmoKPDwKL0xlbmd0aCAzIDAgUgovVHlwZSAvUGFnZQo+PgpzdHJlYW0KQlQKL0YxIDI0IFRmCjcyIDcyMCBUZAooTW9jayBQREYgR2VuZXJhdGVkKSBUagoKRVQKZW5kc3RyZWFtCmVuZG9iagoKMyAwIG9iago0NQplbmRvYmoKCjEgMCBvYmoKPDwKL1R5cGUgL1BhZ2VzCi9LaWRzIFsyIDAgUl0KL0NvdW50IDEKL01lZGlhQm94IFswIDAgNTk1IDg0Ml0KPj4KZW5kb2JqCgp4cmVmCjAgNAowMDAwMDAwMDAwIDY1NTM1IGYKMDAwMDAwMDAwOSAwMDAwMCBuCjAwMDAwMDAwNTggMDAwMDAgbgowMDAwMDAwMTE1IDAwMDAwIG4KdHJhaWxlcgo8PAovU2l6ZSA0Ci9Sb290IDEgMCBSCi9JbmZvIDQgMCBSCj4+CnN0YXJ0eHJlZgo4MAolJUVPRgo="

  const MockPdfUrl := DataPrefix + MockPdfPayload
}
