/** A bucket's stored CORS policy. */
module CorsTypes {
  import opened Common

  datatype CorsRule = CorsRule(
    allowedOrigins: seq<string>,
    allowedMethods: seq<string>,
    allowedHeaders: seq<string>,
    exposeHeaders: seq<string>,
    maxAgeSeconds: Option<nat>)

  datatype CorsConfig = CorsConfig(rules: seq<CorsRule>)
}
