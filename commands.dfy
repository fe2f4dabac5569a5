/** The command envelope a client submits (`src/commands/manager_commands.rs`
    and the `Manager` wrapper of `src/commands/manager.rs`). */
module Commands {
  import opened Prelude

  /** Which queue(s) a `List` command renders. */
  datatype ListCommands = All | Active | Done

  /** The subcommands a client can give. */
  datatype ManagerCommands =
    | Add(url: string, customName: Option<string>, customDownloadPath: Option<string>)
    | List(subcommands: ListCommands)
    | Cancel(filename: string)
    | Info(filename: string)
    | Start(activeDownloads: u16, downloadPath: string)

  /** The deserialized request body: one subcommand. */
  datatype Manager = Manager(subcommands: ManagerCommands)
}
