/** The server's configuration defaults (environment overrides are not modelled). */
module Config {
  /** The GraphQL document id sent with every query. */
  const DocumentId: string := "9510064595728286"

  /** The browser user agent sent on every outbound request. */
  const UserAgent: string := "Mozilla/5.0 (iPhone; CPU iPhone OS 16_6 like Mac OS X) AppleWebKit/605.1.15 (KHTML, like Gecko) Version/16.6 Mobile/15E148 Safari/604.1"
}
