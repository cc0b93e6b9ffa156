/** The record every component passes around (internal/pkg/appconfig/types.go). */
module Config {
  datatype Target = Target(
    id: string,
    name: string,
    endpoint: string,
    tenant: string,
    netns: string,
    labels: map<string, string>,
    customArgs: seq<string>)

  /** The key a target is managed under: its ID, or its name when the ID is empty. */
  function Key(t: Target): string {
    if t.id == "" then t.name else t.id
  }
}
