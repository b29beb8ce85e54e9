/** What the tracker clients receive: the task payload the AI step produced. */
module Task {
  import Json

  /** `{ title, description, labels }`; `labels` stays a JSON value because the Jira
      client re-checks `Array.isArray` and `typeof` on it. "" stands for an absent
      title or description. */
  datatype Payload = Payload(title: string, description: string, labels: Json.Value)
}
