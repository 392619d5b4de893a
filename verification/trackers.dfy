/** The tracker record that travels from the page scan to storage:
    `{ domain: string | null; statusCode?: number }`. */
module Trackers {
  import opened Base

  /** A missing element of the `trackingInfo` array is represented by a
      record with neither field, which every consumer treats the same way. */
  datatype Tracker = Tracker(domain: Option<string>, statusCode: Option<int>)

  /** `Boolean(tracker?.domain)`: present and not the empty string. */
  predicate HasDomain(t: Tracker) {
    t.domain.Some? && t.domain.value != ""
  }
}
