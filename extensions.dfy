/**
 * The marketplace listing records (src/lib/extensions.ts), together with the
 * three derived fields the views read but the `Extension` interface does not
 * declare: `growth_last_day`, `growth_last_week` and
 * `previous_days_downloads`. Only the fields the modelled code reads are kept.
 */
module Extensions {
  import opened Wrappers

  /** An author profile; `handle` identifies the author. */
  datatype User = User(
    name: string,
    handle: string,
    avatar: Option<string>,
    twitter_handle: Option<string>,
    github_handle: Option<string>,
    location: Option<string>,
    website: Option<string>,
    bio: Option<string>)

  datatype Command = Command(id: string, name: string, title: string, subtitle: string, description: string)

  /**
   * Growth between two history snapshots: the signed difference of the
   * download counts and the ratio newer/older (1.0 means no change).
   */
  datatype Growth = Growth(download_count: int, download_change_percentage: real)

  datatype Extension = Extension(
    id: string,
    name: string,
    title: string,
    download_count: int,
    author: User,
    description: string,
    categories: Option<seq<string>>,
    commands: seq<Command>,
    created_at: int,   // seconds since the epoch
    updated_at: int,   // seconds since the epoch
    growth_last_day: Option<Growth>,
    growth_last_week: Option<Growth>,
    previous_days_downloads: Option<seq<int>>)

  /** The two growth windows an extension carries. */
  datatype Window = LastDay | LastWeek

  function GrowthIn(e: Extension, w: Window): Option<Growth> {
    match w
    case LastDay => e.growth_last_day
    case LastWeek => e.growth_last_week
  }

  /** `g?.download_count || 0`: an absent record, or a zero count, reads as 0. */
  function CountOrZero(g: Option<Growth>): int {
    if g.Some? && g.value.download_count != 0 then g.value.download_count else 0
  }

  /** `g?.download_change_percentage || 0`: an absent record, or a zero ratio, reads as 0. */
  function RatioOrZero(g: Option<Growth>): real {
    if g.Some? && g.value.download_change_percentage != 0.0 then g.value.download_change_percentage else 0.0
  }

  /** `g?.download_change_percentage || 1`: an absent record, or a zero ratio, reads as 1. */
  function RatioOrOne(g: Option<Growth>): real {
    if g.Some? && g.value.download_change_percentage != 0.0 then g.value.download_change_percentage else 1.0
  }
}
