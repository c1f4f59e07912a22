/** The error values the tool can produce, one constructor per distinct
    message in the source. Paths are component lists, project kinds are the
    integer ProjectID values. */
module Errors {

  datatype Error =
    // operating-system errors
    | NotExist(path: seq<string>)
    | IsDirectory(path: seq<string>)
    | PermissionDenied(path: seq<string>)
    // internal/utils Grep and Sed
    | ShouldBeFile(path: seq<string>)
    | PatternNotFound(path: seq<string>)
    | MultipleGroups
    // pkg/version
    | InvalidVersion(text: string)
    | InvalidNumber(text: string)
    | NegativeNumber(text: string)
    // project adapters
    | VersionNotFound
    | ParseVersionFailed(cause: Error)
    | VersionTxtNotFound
    | VersionTxtParseFailed(path: seq<string>, cause: Error)
    | VersionTxtMissing
    | NoProjects(workdir: seq<string>)
    | MemberFailed(id: int, cause: Error)
    | VersionMismatch(first: int, other: int)
    // git
    | GitStatusFailed(detail: string)
    | UncommittedChanges
    | GitBranchStatusFailed(detail: string)
    | AheadOfUpstream(upstream: string, count: int)
    | GitFailed(args: seq<string>, detail: string)
    | ResolveVersionFailed(cause: Error)
    // a Go runtime panic, which ends the program
    | Panicked(reason: string)
}
