/** The library's configuration record and its default values. */
module KronosProperty {

  datatype Properties = Properties(
    backendZoneId: string,
    defaultClientZoneId: string,
    clientZoneIdHeader: string,
    defaultDateTimeFormat: string,
    handleRequest: bool,
    handleResponse: bool)

  /** The values a fresh KronosProperty bean holds. */
  const Defaults := Properties("UTC", "Asia/Shanghai", "X-Time-Zone", "yyyy-MM-dd HH:mm:ss", true, true)

  /** The pattern @Time carries when it names none. */
  const TimeAnnotationFormat := "yyyy-MM-dd HH:mm:ss"
}
