/**
 * image-loader.js: the custom image loader that prefixes local image paths with the
 * repository's base path in a production build and leaves external URLs alone. The
 * build mode, read from the environment in the source, is a parameter here.
 */
module ImageLoader {
  import opened Text

  const RepoName: string := "model-bench"

  /** `isProd ? `/${repoName}` : ""`. */
  function BasePath(isProd: bool): string
  {
    if isProd then "/" + RepoName else ""
  }

  /**
   * The loader: `src` unchanged when it starts with "http", otherwise the base path
   * followed by `src`. `width` and `quality` are accepted and not used.
   */
  function Load(src: string, width: int, quality: int, isProd: bool): string
  {
    if StartsWith(src, "http") then src else BasePath(isProd) + src
  }

  /**
   * The result always ends with `src`; an external URL, or any path outside production,
   * comes back unchanged; a local path in production gets "/model-bench" in front; and
   * the width and quality make no difference.
   */
  lemma LoadProperties(src: string, width: int, quality: int, isProd: bool)
    ensures var r := Load(src, width, quality, isProd);
      && |src| <= |r| && r[|r| - |src|..] == src
      && (StartsWith(src, "http") || !isProd ==> r == src)
      && (!StartsWith(src, "http") && isProd ==> r == "/model-bench" + src)
      && (forall w: int, q: int :: Load(src, w, q, isProd) == r)
  {
    var r := Load(src, width, quality, isProd);
    if !StartsWith(src, "http") {
      assert r == BasePath(isProd) + src;
      assert r[|r| - |src|..] == src;
    }
  }
}
