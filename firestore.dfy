/**
 * The record types of lib/firebase/firestore.ts that the aggregation engine reads.
 * Only the types are modelled; every Firestore query is left out.
 */
module Firestore {
  import opened Wrappers

  /** The ordered congestion scale `'low' | 'medium' | 'high'`. */
  datatype CrowdLevel = Low | Medium | High

  /**
   * Who produced a report. The engine only ever asks whether the tag is
   * `'user'`; `Untagged` is a report whose stored document has no `source`
   * field at all (which is what `submitCrowdReport` writes).
   */
  datatype Source = User | Seed | System | Untagged

  /** One stored crowd report; `timestamp` is in milliseconds since the epoch. */
  datatype CrowdReport = CrowdReport(
    id: string,
    officeId: string,
    crowdLevel: CrowdLevel,
    timestamp: int,
    userId: Option<string>,
    source: Source)
}
