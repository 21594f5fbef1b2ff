/** The keys of a path item that are operations. */
module HttpMethods {
  const HTTP_METHODS := {"delete", "get", "head", "options", "patch", "post", "put", "trace"}
}
