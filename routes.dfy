/** The club route builders of frontend/constants/routes.ts. */
module Routes {
  import opened Wrappers

  /** `slug ? ... : ...`: an absent or empty slug selects the placeholder route. */
  predicate HasSlug(slug: Option<string>) {
    slug.Some? && slug.value != ""
  }

  /** `CLUB_ROUTE(slug)` */
  function ClubRoute(slug: Option<string>): (r: string)
    ensures HasSlug(slug) ==> r == "/club/" + slug.value
    ensures !HasSlug(slug) ==> r == "/club/[club]"
  {
    if HasSlug(slug) then "/club/" + slug.value else "/club/[club]"
  }

  /** `CLUB_EDIT_ROUTE(slug)` */
  function ClubEditRoute(slug: Option<string>): (r: string)
    ensures r == ClubRoute(slug) + "/edit"
  {
    if HasSlug(slug) then "/club/" + slug.value + "/edit" else "/club/[club]/edit"
  }

  /** `CLUB_FLYER_ROUTE(slug)` */
  function ClubFlyerRoute(slug: Option<string>): (r: string)
    ensures r == ClubRoute(slug) + "/flyer"
  {
    if HasSlug(slug) then "/club/" + slug.value + "/flyer" else "/club/[club]/flyer"
  }

  /** Distinct slugs give distinct club routes. */
  lemma ClubRouteInjective(a: string, b: string)
    requires a != "" && b != "" && a != b
    ensures ClubRoute(Some(a)) != ClubRoute(Some(b))
  {
    assert ClubRoute(Some(a))[6..] == a;
    assert ClubRoute(Some(b))[6..] == b;
  }
}
