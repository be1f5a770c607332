/** The two kinds of document the chaincode keeps, and how a query sees them. */
module Records {
  import opened Json

  datatype Certificate = Certificate(
    certId: string, certType: string, entrustOrg: string, instrumentName: string,
    spec: string, exportId: string, madeByOrg: string, entrustOrgAdd: string,
    approver: string, verifier: string, calibratePerson: string,
    calibrateDate: string, suggestNextCaliDate: string,
    isCompleted: bool, isOpen: bool, isDeleted: bool,
    updateDate: string, hasUpload: bool)

  /** An uploaded file; `certFile` is the base64 text that stands for the bytes in JSON. */
  datatype FileStruct = FileStruct(certId: string, certFile: string, fileName: string)

  /** The top-level members of a stored document. */
  type Document = map<string, Json>

  function CertificateDocument(c: Certificate): Document {
    map[
      "certId" := Str(c.certId), "certType" := Str(c.certType), "entrustOrg" := Str(c.entrustOrg),
      "instrumentName" := Str(c.instrumentName), "spec" := Str(c.spec), "exportId" := Str(c.exportId),
      "madeByOrg" := Str(c.madeByOrg), "entrustOrgAdd" := Str(c.entrustOrgAdd),
      "approver" := Str(c.approver), "verifier" := Str(c.verifier), "calibratePerson" := Str(c.calibratePerson),
      "calibrateDate" := Str(c.calibrateDate), "suggestNextCaliDate" := Str(c.suggestNextCaliDate),
      "isCompleted" := Bool(c.isCompleted), "isOpen" := Bool(c.isOpen), "isDeleted" := Bool(c.isDeleted),
      "updateDate" := Str(c.updateDate), "hasUpload" := Bool(c.hasUpload)]
  }

  function FileDocument(f: FileStruct): Document {
    map["certId" := Str(f.certId), "certFile" := Str(f.certFile), "fileName" := Str(f.fileName)]
  }
}
