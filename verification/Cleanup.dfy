/** The scheduled cleanup over all tables. */
module Cleanup {
  import opened StoredShares
  import opened StoredService
  import PinBudget
  import IpQuota
  import Secrets

  /** Undisturbed, with one clock reading for each table, every table keeps exactly what is not over. */
  method RunCleanup(service: StoredShareService, guard: PinBudget.AccessGuard, quota: IpQuota.QuotaTables,
                    store: Secrets.SecretStore, staleAt: nat, sweepAt: nat, guardAt: nat, quotaAt: nat, secretsAt: nat)
    modifies service`rows, service`objects, guard, quota`rows, store
    ensures var expired := ExpireStaleUploads(old(service.rows), staleAt);
            && service.rows == SweptRows(expired, sweepAt)
            && service.objects == SweptObjects(expired, old(service.objects), sweepAt)
    ensures guard.rows == PinBudget.Prune(old(guard.rows), guardAt)
    ensures quota.rows == IpQuota.PruneBuckets(old(quota.rows), quotaAt)
    ensures store.rows == Secrets.PruneExpired(old(store.rows), secretsAt)
  {
    service.ExpireStale(staleAt);
    service.DeleteExpiredStoredObjects(sweepAt);
    var changes := guard.PruneGlobalIpAbuse(guardAt);
    quota.PruneIpQuotas(quotaAt);
    store.PruneExpiredSecrets(secretsAt);
  }
}
