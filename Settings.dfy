/** The run-wide parameters of the batch job. */
module Settings {

  /** maxWorkers is MAX_WORKERS (thread-pool size, also the divisor of the chunk
    * size), maxRetries is MAX_RETRIES (attempts per review) and retryDelay is
    * RETRY_DELAY (base backoff, in seconds). */
  datatype Config = Config(maxWorkers: nat, maxRetries: nat, retryDelay: nat)

  /** The values the script is configured with. */
  const Default: Config := Config(4, 3, 2)

  /** The header of the review column, REVIEW_COLUMN. */
  const ReviewColumn: string := "content"

  /** The eight output columns, CATEGORIES, in order. */
  const Categories: seq<string> := [
    "Sentiment",
    "Cancellation & Wait Time",
    "Pricing & Payment",
    "Driver & Vehicle Quality",
    "App & Technical Issues",
    "Customer Support",
    "General/Praise",
    "Others"
  ]

  const CategorySet: set<string> := set c | c in Categories

  /** No category name is listed twice. */
  lemma CategoriesDistinct(i: nat)
    requires i < |Categories|
    ensures Categories[i] !in Categories[..i]
  {
  }
}
