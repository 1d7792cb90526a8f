/** The states of a subscription. */
module SubscriptionStatus {
  datatype Status = Trialing | Active | PastDue | GracePeriod | Suspended | Cancelled | Expired

  /** States in which nothing may be sent. */
  predicate Stopped(s: Status) {
    s.Suspended? || s.Cancelled? || s.Expired?
  }
}
