/** The notifier's fixed configuration. */
module Config {

  /** The vendors watched in the CVE feed and looked for in advisories,
      in the order they are tried. */
  const Manufacturers: seq<string> := ["VMware", "Arcserve", "Sophos", "Microsoft", "Lenovo"]
}
