/** The proxy token record that store and cache share (internal/database/models.go). */
module ProxyTokens {
  import opened Prelude

  /** A proxy token stands for a user's credential, an agent token for an installation of
      the GitHub App. */
  datatype TokenKind = ProxyKind | AgentKind | UnknownKind

  /** An empty user id means none. `rest` stands for the fields that play no part here. */
  datatype ProxyToken = ProxyToken(
    id: string, kind: TokenKind, tokenHash: string, userId: string, githubTokenId: Option<string>,
    revokedAt: Option<int>, expiresAt: Option<int>, rest: string)
}
