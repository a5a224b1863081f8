/** The shapes of `types.ts` that the modelled components share. */
module Types {
  /** `Role`: who is using the application. */
  datatype Role = JobSeeker | Recruiter
}
