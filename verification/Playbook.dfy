/** Actions, playbooks and manifests, as the configuration files declare them (src/config.rs). */
module Playbook {
  datatype Action =
    | ValidateState
    | LogJson
    | Pause
    | Unpause
    | Restart
    | CommitSnapshot(prefix: string)
    | NftBlacklist(setName: string, timeout: string)
    | ContainerSignal(signal: string)
    | RunCustomScript(path: string)
    | WebhookAlert(url: string)
    | LogCritical

  datatype PlaybookConfig = PlaybookConfig(tryActions: seq<Action>, finalActions: seq<Action>)

  datatype RuleConfig = RuleConfig(name: string, matchAny: seq<string>, playbook: string)

  datatype WhitelistConfig = WhitelistConfig(name: string, matchAny: seq<string>)

  datatype MappingConfig = MappingConfig(activeRules: seq<string>, activeWhitelists: seq<string>)

  /** What one dispatch hands to a worker: the two action lists, the rule and the trigger line. */
  datatype Message = Message(tryActions: seq<Action>, finalActions: seq<Action>, rule: string, trigger: string)
}
