/** The crawler's cache policy and the cache files it reads and writes.

    The output directory is a value: whether it can be created and used, whether
    writes to it succeed, and the three kinds of cache file it may hold, each found
    either with content that decodes or with content that does not. */
module Cache {
  import opened Wrappers
  import opened Publication
  import opened FieldNormalizer

  /** Which stages read and write their cache files. */
  datatype CachePolicy = CachePolicy(
    useCacheForCategories: bool,
    useCacheForCategoriesPublications: bool,
    useCacheForPublications: bool)

  /** A cache file that exists: its content decodes to a value, or it does not. */
  datatype Stored<T> = Intact(value: T) | Corrupt

  datatype Disk = Disk(
    outDirUsable: bool,
    writable: bool,
    categoryFile: Option<Stored<seq<Category>>>,
    urlListFiles: map<string, Stored<seq<string>>>,
    publicationFiles: map<string, Stored<seq<Publication>>>)

  /** What reading a cache file into an empty list leaves in the list. */
  function Contents<T>(file: Stored<seq<T>>): seq<T>
  {
    if file.Intact? then file.value else []
  }

  /** What reading the cache file under `key`, when there is one, leaves in an empty list. */
  function Lookup<T>(files: map<string, Stored<seq<T>>>, key: string): seq<T>
  {
    if key in files then Contents(files[key]) else []
  }

  /** The name of a category's files in the URL-list and publication directories
      (the URL-list file adds ".json" to it, and so does the publication file). */
  function PubsFileName(cat: Category): string
  {
    NameForCategoryPubsFile(CleanField(cat.name))
  }
}
