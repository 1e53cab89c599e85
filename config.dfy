/** The settings the modelled code reads, as AppConfig, SchedulerConfig and
    WebhookConfig declare them. Loading them from config.json is not part of
    this model; a string the JSON may set to null is an Option. */
module Config {
  import opened Base

  datatype SchedulerConfig = SchedulerConfig(
    enabled: bool,
    intervalMinutes: int32,
    queryStartOffsetMinutes: int32,
    queryEndOffsetMinutes: int32)

  datatype WebhookConfig = WebhookConfig(
    url: Option<string>,
    token: Option<string>,
    header: Option<string>,
    sendFilteredLogs: bool,
    retryCount: int32,
    retryIntervalBySec: int32)

  datatype AppConfig = AppConfig(
    seqUrl: string,
    apiKey: Option<string>,
    backupDirectory: string,
    applicationName: string,
    environment: string,
    logType: string,
    pageSize: int32,
    scheduler: SchedulerConfig,
    webhook: WebhookConfig)

  /** The property initialisers: what a config.json that omits a setting gets. */
  const DefaultScheduler: SchedulerConfig := SchedulerConfig(false, 60, -60, 0)
  const DefaultWebhook: WebhookConfig := WebhookConfig(Some(""), Some(""), Some("Authorization"), false, 3, 3)
  const DefaultConfig: AppConfig :=
    AppConfig("", Some(""), "Backups", "", "Production", "Request", 1000, DefaultScheduler, DefaultWebhook)
}
